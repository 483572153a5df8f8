/** One tick rate of qf_time.c as a state machine on values: the main list, the list
    of freshly armed events, the position of the tick scan, and every event's
    down-counter and interval.  An event with counter 0 is disarmed; it may stay
    linked until a scan passes it.

    Each operation here is one critical section, so a list of operations is an
    arbitrary interleaving of arm, disarm and rearm with the scan of a tick. */
module TimerSpec {
  import opened Basics
  import opened Arith

  datatype Timer = Timer(ctr: nat, interval: nat)

  datatype Wheel<T> = Wheel(main: seq<T>, newly: seq<T>, timers: map<T, Timer>, pos: nat)

  /** The lists are disjoint and free of repetition, and every armed event is linked. */
  ghost predicate Inv<T>(w: Wheel<T>) {
    && w.pos <= |w.main|
    && NoDup(w.main + w.newly)
    && (forall t :: t in w.main + w.newly ==> t in w.timers)
    && (forall t :: t in w.timers && w.timers[t].ctr > 0 ==> t in w.main + w.newly)
  }

  // ------------------------------------------------------------------
  // The critical sections

  /** Entry of QF_tickX_: prev is the list head. */
  function Begin<T>(w: Wheel<T>): Wheel<T> {
    w.(pos := 0)
  }

  predicate ScanDone<T>(w: Wheel<T>) {
    w.pos >= |w.main| && w.newly == []
  }

  /** At the end of the main list the freshly armed events are appended to it. */
  function Splice<T>(w: Wheel<T>): Wheel<T> {
    if w.pos >= |w.main| then w.(main := w.main + w.newly, newly := []) else w
  }

  /** One pass of the scan loop: the new state and the event posted, if any. */
  function Scan<T>(w: Wheel<T>): (r: (Wheel<T>, Option<T>))
    requires w.pos <= |w.main| && !ScanDone(w)
    requires forall t <- w.main + w.newly :: t in w.timers
  {
    var v := Splice(w);
    var t := v.main[v.pos];
    assert t in w.main + w.newly;
    var Timer(ctr, interval) := v.timers[t];
    if ctr == 0 then
      (v.(main := RemoveAt(v.main, v.pos)), None)
    else if ctr > 1 then
      (v.(timers := v.timers[t := Timer(ctr - 1, interval)], pos := v.pos + 1), None)
    else if interval != 0 then
      (v.(timers := v.timers[t := Timer(interval, interval)], pos := v.pos + 1), Some(t))
    else
      (v.(timers := v.timers[t := Timer(0, 0)], main := RemoveAt(v.main, v.pos)), Some(t))
  }

  function Link<T(==)>(w: Wheel<T>, t: T): Wheel<T> {
    if t in w.main || t in w.newly then w else w.(newly := [t] + w.newly)
  }

  /** QTimeEvt_armX; the event must be disarmed (precondition 400). */
  function Arm<T(==)>(w: Wheel<T>, t: T, n: nat, interval: nat): Wheel<T> {
    Link(w, t).(timers := w.timers[t := Timer(n, interval)])
  }

  /** QTimeEvt_disarm. */
  function Disarm<T>(w: Wheel<T>, t: T): Wheel<T>
    requires t in w.timers
  {
    w.(timers := w.timers[t := Timer(0, w.timers[t].interval)])
  }

  /** QTimeEvt_rearm. */
  function Rearm<T(==)>(w: Wheel<T>, t: T, n: nat): Wheel<T>
    requires t in w.timers
  {
    Link(w, t).(timers := w.timers[t := Timer(n, w.timers[t].interval)])
  }

  // ------------------------------------------------------------------
  // Every critical section keeps the lists in order

  lemma NoDupRemoveAt<T>(s: seq<T>, k: nat)
    requires NoDup(s) && k < |s|
    ensures NoDup(RemoveAt(s, k))
    ensures forall x :: x in RemoveAt(s, k) <==> x in s && x != s[k]
  {
    var r := RemoveAt(s, k);
    forall x | x in s && x != s[k] ensures x in r {
      var i :| 0 <= i < |s| && s[i] == x;
      assert if i < k then r[i] == x else r[i - 1] == x;
    }
    assert forall i :: 0 <= i < |r| ==> r[i] == if i < k then s[i] else s[i + 1];
  }

  lemma SpliceKeepsInv<T>(w: Wheel<T>)
    requires Inv(w)
    ensures Inv(Splice(w)) && Splice(w).main + Splice(w).newly == w.main + w.newly
    ensures !ScanDone(w) ==> w.pos < |Splice(w).main|
  {
    var v := Splice(w);
    if w.pos >= |w.main| {
      assert v.main + v.newly == w.main + w.newly;
      assert forall t :: t in v.main <==> t in w.main || t in w.newly;
    }
  }

  /** The state after the event at the scan position has been taken off the list. */
  function Unlinked<T>(w: Wheel<T>, tm: Timer): Wheel<T>
    requires w.pos < |w.main|
  {
    w.(main := RemoveAt(w.main, w.pos), timers := w.timers[w.main[w.pos] := tm])
  }

  lemma UnlinkKeepsInv<T>(w: Wheel<T>, tm: Timer)
    requires Inv(w) && w.pos < |w.main| && tm.ctr == 0
    ensures var v, t := Unlinked(w, tm), w.main[w.pos];
            && Inv(v) && t in w.timers
            && (forall e :: e in v.main + v.newly <==> e in w.main + w.newly && e != t)
  {
    var all := w.main + w.newly;
    NoDupRemoveAt(all, w.pos);
    assert RemoveAt(all, w.pos) == RemoveAt(w.main, w.pos) + w.newly;
    assert all[w.pos] == w.main[w.pos];
  }

  lemma ScanKeepsInv<T>(w: Wheel<T>)
    requires Inv(w) && !ScanDone(w)
    ensures Inv(Scan(w).0)
  {
    SpliceKeepsInv(w);
    var v := Splice(w);
    var t := v.main[v.pos];
    assert t in v.main + v.newly;
    if v.timers[t].ctr == 0 {
      assert v.timers[t := v.timers[t]] == v.timers;
      UnlinkKeepsInv(v, v.timers[t]);
    } else if v.timers[t].ctr == 1 && v.timers[t].interval == 0 {
      UnlinkKeepsInv(v, Timer(0, 0));
    }
  }

  lemma LinkKeepsLists<T>(w: Wheel<T>, t: T)
    requires Inv(w) && t in w.timers
    ensures Inv(Link(w, t))
    ensures forall x :: x in Link(w, t).main + Link(w, t).newly <==> x in w.main + w.newly || x == t
  {
    if t !in w.main && t !in w.newly {
      var both, new' := w.main + w.newly, w.main + ([t] + w.newly);
      forall i, j | 0 <= i < j < |new'| ensures new'[i] != new'[j] {
        var i' := if i <= |w.main| then i else i - 1;
        var j' := if j <= |w.main| then j else j - 1;
        if i == |w.main| {
          assert new'[i] == t && new'[j] == w.newly[j - 1 - |w.main|];
        } else if j == |w.main| {
          assert new'[j] == t && new'[i] == w.main[i];
        } else {
          assert both[i'] == new'[i] && both[j'] == new'[j];
        }
      }
      assert Link(w, t).main + Link(w, t).newly == new';
    }
  }

  datatype Op<T> =
    | OpBegin
    | OpScan
    | OpArm(t: T, n: nat, interval: nat)
    | OpDisarm(t: T)
    | OpRearm(t: T, n: nat)

  /** What the source demands of its callers, and when the scan goes on. */
  ghost predicate Enabled<T>(w: Wheel<T>, op: Op<T>) {
    match op
    case OpBegin => true
    case OpScan => !ScanDone(w)
    case OpArm(t, n, _) => t in w.timers && w.timers[t].ctr == 0 && n > 0
    case OpDisarm(t) => t in w.timers
    case OpRearm(t, n) => t in w.timers && n > 0
  }

  ghost function Apply<T>(w: Wheel<T>, op: Op<T>): (Wheel<T>, Option<T>)
    requires Inv(w) && Enabled(w, op)
  {
    match op
    case OpBegin => (Begin(w), None)
    case OpScan => Scan(w)
    case OpArm(t, n, i) => (Arm(w, t, n, i), None)
    case OpDisarm(t) => (Disarm(w, t), None)
    case OpRearm(t, n) => (Rearm(w, t, n), None)
  }

  /** No interleaving of critical sections breaks the lists. */
  lemma ApplyKeepsInv<T>(w: Wheel<T>, op: Op<T>)
    requires Inv(w) && Enabled(w, op)
    ensures Inv(Apply(w, op).0)
    ensures Apply(w, op).0.timers.Keys == w.timers.Keys
  {
    match op
    case OpBegin =>
    case OpScan => ScanKeepsInv(w); SpliceKeepsInv(w);
    case OpArm(t, n, i) => LinkKeepsLists(w, t);
    case OpDisarm(t) =>
    case OpRearm(t, n) => LinkKeepsLists(w, t);
  }

  // ------------------------------------------------------------------
  // What a scan does to the counters, interleaved or not

  /** What one tick does to one timer. */
  function TickTimer(tm: Timer): Timer {
    if tm.ctr == 0 then tm
    else if tm.ctr == 1 then Timer(tm.interval, tm.interval)
    else Timer(tm.ctr - 1, tm.interval)
  }

  /** The linked events the scan has still to handle, in order. */
  function Pending<T>(w: Wheel<T>): seq<T>
    requires w.pos <= |w.main|
  {
    w.main[w.pos..] + w.newly
  }

  lemma SpliceKeepsPending<T>(w: Wheel<T>)
    requires Inv(w) && !ScanDone(w)
    ensures var v := Splice(w);
            && v.pos == w.pos < |v.main| && v.timers == w.timers && v.main[..v.pos] == w.main[..w.pos]
            && Pending(w) == [v.main[v.pos]] + (v.main[v.pos + 1..] + v.newly)
            && v.main[v.pos] in w.timers
  {
    SpliceKeepsInv(w);
    var v := Splice(w);
    if w.pos >= |w.main| {
      SplitJoined(w.main, w.newly);
    } else {
      SplitAt(w.main, w.pos, w.newly);
    }
    assert (v.main + v.newly)[v.pos] == v.main[v.pos];
  }

  lemma SplitJoined<T>(s: seq<T>, rest: seq<T>)
    requires rest != []
    ensures (s + rest)[..|s|] == s[..|s|]
    ensures s[|s|..] + rest == [(s + rest)[|s|]] + ((s + rest)[|s| + 1..] + [])
  {
    assert s[|s|..] == [] && (s + rest)[|s| + 1..] == rest[1..];
    assert rest == [rest[0]] + rest[1..];
  }

  lemma SplitAt<T>(s: seq<T>, k: nat, rest: seq<T>)
    requires k < |s|
    ensures s[k..] + rest == [s[k]] + (s[k + 1..] + rest)
  {
  }

  /** The two ways a pass of the loop ends: unlink, or advance. */
  lemma UnlinkOrAdvance<T>(s: seq<T>, k: nat)
    requires k < |s|
    ensures RemoveAt(s, k)[..k] == s[..k] && RemoveAt(s, k)[k..] == s[k + 1..]
    ensures s[..k + 1] == s[..k] + [s[k]]
  {
  }

  /** One pass of the loop handles exactly the first pending event. */
  lemma ScanHandlesNext<T>(w: Wheel<T>)
    requires Inv(w) && !ScanDone(w)
    ensures var (v, posted) := Scan(w);
            && Pending(w) != [] && Inv(v)
            && var t := Pending(w)[0];
            && t in w.timers
            && Pending(v) == Pending(w)[1..]
            && v.timers == w.timers[t := TickTimer(w.timers[t])]
            && posted == (if w.timers[t].ctr == 1 then Some(t) else None)
            && v.main[..v.pos] == w.main[..w.pos] + (if TickTimer(w.timers[t]).ctr > 0 then [t] else [])
  {
    ScanKeepsInv(w);
    SpliceKeepsPending(w);
    var s := Splice(w);
    UnlinkOrAdvance(s.main, s.pos);
    var t := s.main[s.pos];
    var rest := s.main[s.pos + 1..] + s.newly;
    assert ([t] + rest)[1..] == rest;
    assert w.timers[t := w.timers[t]] == w.timers;
  }

  lemma NoDupPending<T>(w: Wheel<T>)
    requires Inv(w)
    ensures NoDup(Pending(w))
    ensures forall t :: t in Pending(w) ==> t in w.timers
  {
    var p := Pending(w);
    assert forall i :: 0 <= i < |p| ==> p[i] == (w.main + w.newly)[i + w.pos];
  }

  /** The same as seen by one event. */
  lemma ScanHandlesOne<T>(w: Wheel<T>, t: T)
    requires Inv(w) && !ScanDone(w) && t in w.timers
    ensures var (v, posted) := Scan(w);
            && Inv(v) && |Pending(v)| < |Pending(w)| && v.timers.Keys == w.timers.Keys
            && (t in Pending(v) ==> t in Pending(w))
            && if t in Pending(w) && t !in Pending(v) then
                 v.timers[t] == TickTimer(w.timers[t]) && (posted == Some(t) <==> w.timers[t].ctr == 1)
               else
                 v.timers[t] == w.timers[t] && posted != Some(t)
  {
    ScanHandlesNext(w);
    NoDupPending(w);
    HeadIsOnce(Pending(w), t);
  }

  lemma HeadIsOnce<T>(p: seq<T>, t: T)
    requires p != [] && NoDup(p)
    ensures t in p <==> t == p[0] || t in p[1..]
    ensures t == p[0] ==> t !in p[1..]
  {
    assert p == [p[0]] + p[1..];
  }

  ghost predicate Touches<T>(op: Op<T>, t: T) {
    match op
    case OpArm(x, _, _) => x == t
    case OpDisarm(x) => x == t
    case OpRearm(x, _) => x == t
    case _ => false
  }

  ghost predicate RunOk<T>(w: Wheel<T>, ops: seq<Op<T>>)
    requires Inv(w)
    decreases |ops|
  {
    ops == [] || (Enabled(w, ops[0]) && (ApplyKeepsInv(w, ops[0]); RunOk(Apply(w, ops[0]).0, ops[1..])))
  }

  /** The state after a run, and the events posted during it. */
  ghost function Exec<T>(w: Wheel<T>, ops: seq<Op<T>>): (r: (Wheel<T>, seq<T>))
    requires Inv(w) && RunOk(w, ops)
    ensures Inv(r.0) && r.0.timers.Keys == w.timers.Keys
    decreases |ops|
  {
    if ops == [] then (w, [])
    else
      ApplyKeepsInv(w, ops[0]);
      var (v, posted) := Apply(w, ops[0]);
      var (u, rest) := Exec(v, ops[1..]);
      (u, (if posted.Some? then [posted.value] else []) + rest)
  }

  lemma {:induction false} CountAbsent<T>(s: seq<T>, x: T)
    ensures Count(s, x) > 0 <==> x in s
  {
    if s != [] {
      CountAbsent(s[1..], x);
      assert s == [s[0]] + s[1..];
    }
  }

  /** Linking another event does not change whether `t` waits for the scan. */
  lemma LinkKeepsPending<T>(w: Wheel<T>, x: T, t: T)
    requires Inv(w) && x != t
    ensures t in Pending(Link(w, x)) <==> t in Pending(w)
  {
  }

  /** Within a scan, whatever arm, disarm and rearm calls for other events come in
      between, an event waits untouched until the scan handles it, is handled once,
      and is left alone afterwards. */
  lemma {:induction false} HandledAtMostOnce<T>(w: Wheel<T>, ops: seq<Op<T>>, t: T)
    requires Inv(w) && RunOk(w, ops) && t in w.timers
    requires forall op <- ops :: !op.OpBegin? && !Touches(op, t)
    ensures var (v, posts) := Exec(w, ops);
            if t !in Pending(w) || t in Pending(v) then
              v.timers[t] == w.timers[t] && Count(posts, t) == 0 && (t !in Pending(w) ==> t !in Pending(v))
            else
              v.timers[t] == TickTimer(w.timers[t]) && Count(posts, t) == (if w.timers[t].ctr == 1 then 1 else 0)
    decreases |ops|
  {
    if ops != [] {
      var op := ops[0];
      ApplyKeepsInv(w, op);
      var (v, posted) := Apply(w, op);
      HandledAtMostOnce(v, ops[1..], t);
      if op.OpScan? {
        ScanHandlesOne(w, t);
      } else if op.OpArm? || op.OpRearm? {
        LinkKeepsPending(w, op.t, t);
      }
      CountPosted(posted, Exec(v, ops[1..]).1, t);
    }
  }

  lemma CountPosted<T>(posted: Option<T>, rest: seq<T>, t: T)
    ensures Count((if posted.Some? then [posted.value] else []) + rest, t)
         == (if posted == Some(t) then 1 else 0) + Count(rest, t)
  {
    if posted.Some? {
      assert ([posted.value] + rest)[1..] == rest;
    } else {
      assert [] + rest == rest;
    }
  }

  /** A complete tick, with arbitrary interleaving: an event that nobody touches
      meanwhile is ticked exactly once, and posted exactly when it expires. */
  lemma InterleavedTick<T>(w: Wheel<T>, ops: seq<Op<T>>, t: T)
    requires Inv(w) && RunOk(w, [OpBegin] + ops) && t in w.timers
    requires forall op <- ops :: !op.OpBegin? && !Touches(op, t)
    requires ScanDone(Exec(w, [OpBegin] + ops).0)
    ensures var (v, posts) := Exec(w, [OpBegin] + ops);
            v.timers[t] == TickTimer(w.timers[t]) && Count(posts, t) == (if w.timers[t].ctr == 1 then 1 else 0)
  {
    var all := [OpBegin] + ops;
    assert all[0] == OpBegin && all[1..] == ops;
    ApplyKeepsInv(w, OpBegin);
    var v := Begin(w);
    assert Apply(w, all[0]).0 == v;
    HandledAtMostOnce(v, ops, t);
    assert Pending(v) == w.main + w.newly;
    assert [] + Exec(v, ops).1 == Exec(v, ops).1;
  }

  // ------------------------------------------------------------------
  // Atomic ticks refine a plain map of down-counters

  /** Run the scan to its end. */
  ghost function ScanAll<T>(w: Wheel<T>): (r: (Wheel<T>, seq<T>))
    requires Inv(w)
    ensures Inv(r.0) && ScanDone(r.0)
    decreases |Pending(w)|
  {
    if ScanDone(w) then (w, [])
    else
      ScanHandlesNext(w);
      var (v, posted) := Scan(w);
      var (u, rest) := ScanAll(v);
      (u, (if posted.Some? then [posted.value] else []) + rest)
  }

  lemma ScanAllUnfolds<T>(w: Wheel<T>, posts: seq<T>)
    requires Inv(w)
    ensures ScanDone(w) ==> ScanAll(w) == (w, []) && posts + [] == posts
    ensures !ScanDone(w) ==>
              var (v, posted) := Scan(w);
              && Inv(v) && |Pending(v)| < |Pending(w)|
              && ScanAll(w).0 == ScanAll(v).0
              && posts + ScanAll(w).1 == (if posted.Some? then posts + [posted.value] else posts) + ScanAll(v).1
  {
    if ScanDone(w) {
      assert posts + [] == posts;
    } else {
      ScanHandlesNext(w);
      var (v, posted) := Scan(w);
      PostsJoin(posts, posted, ScanAll(v).1);
    }
  }

  lemma PostsJoin<T>(posts: seq<T>, posted: Option<T>, rest: seq<T>)
    ensures posts + ((if posted.Some? then [posted.value] else []) + rest)
         == (if posted.Some? then posts + [posted.value] else posts) + rest
  {
  }

  ghost function Tick<T>(w: Wheel<T>): (r: (Wheel<T>, seq<T>))
    requires Inv(w)
    ensures Inv(r.0)
  {
    ScanAll(Begin(w))
  }

  lemma {:induction false} ScanAllTicksOne<T>(w: Wheel<T>, t: T)
    requires Inv(w) && t in w.timers
    ensures var (v, posts) := ScanAll(w);
            && t in v.timers
            && v.timers[t] == (if t in Pending(w) then TickTimer(w.timers[t]) else w.timers[t])
            && Count(posts, t) == (if t in Pending(w) && w.timers[t].ctr == 1 then 1 else 0)
    decreases |Pending(w)|
  {
    if ScanDone(w) {
      assert Pending(w) == [];
    } else {
      ScanHandlesOne(w, t);
      var (v, posted) := Scan(w);
      ScanAllTicksOne(v, t);
      CountPosted(posted, ScanAll(v).1, t);
    }
  }

  lemma {:induction false} ScanAllKeys<T>(w: Wheel<T>)
    requires Inv(w)
    ensures ScanAll(w).0.timers.Keys == w.timers.Keys
    decreases |Pending(w)|
  {
    if !ScanDone(w) {
      ScanHandlesNext(w);
      ScanAllKeys(Scan(w).0);
    }
  }

  /** Each tick handles every armed event exactly once and no other. */
  lemma TickIsPointwise<T>(w: Wheel<T>)
    requires Inv(w)
    ensures var (v, posts) := Tick(w);
            && v.timers == (map t | t in w.timers :: TickTimer(w.timers[t]))
            && (forall t :: t in w.timers ==> Count(posts, t) == (if w.timers[t].ctr == 1 then 1 else 0))
  {
    var b := Begin(w);
    assert Pending(b) == w.main + w.newly;
    ScanAllKeys(b);
    forall t | t in w.timers
      ensures Tick(w).0.timers[t] == TickTimer(w.timers[t])
      ensures Count(Tick(w).1, t) == (if w.timers[t].ctr == 1 then 1 else 0)
    {
      ScanAllTicksOne(b, t);
    }
  }

  lemma {:induction false} ScanAllLeavesArmed<T>(w: Wheel<T>)
    requires Inv(w) && forall t :: t in w.main[..w.pos] ==> w.timers[t].ctr > 0
    ensures forall t :: t in ScanAll(w).0.main ==> ScanAll(w).0.timers[t].ctr > 0
    decreases |Pending(w)|
  {
    if ScanDone(w) {
      assert w.main[..w.pos] == w.main;
    } else {
      ScanHandlesNext(w);
      var v := Scan(w).0;
      forall t | t in v.main[..v.pos] ensures v.timers[t].ctr > 0 {
        PassedNotPending(w, t);
      }
      ScanAllLeavesArmed(v);
    }
  }

  lemma PassedNotPending<T>(w: Wheel<T>, t: T)
    requires Inv(w)
    ensures t in w.main[..w.pos] ==> t in w.timers && t !in Pending(w)
  {
    if t in w.main[..w.pos] {
      var all := w.main + w.newly;
      var i :| 0 <= i < w.pos && w.main[..w.pos][i] == t;
      assert all[i] == t;
      assert forall j :: 0 <= j < |Pending(w)| ==> Pending(w)[j] == all[j + w.pos];
    }
  }

  /** Right after a tick without interleaving the lists hold exactly the armed events, so
      then "nothing linked" is the same as "nothing armed". */
  lemma TickLeavesExactlyArmed<T>(w: Wheel<T>)
    requires Inv(w)
    ensures var v := Tick(w).0;
            && (forall t :: t in v.main + v.newly <==> t in v.timers && v.timers[t].ctr > 0)
            && (v.main == [] && v.newly == [] <==> forall t :: t in v.timers ==> v.timers[t].ctr == 0)
  {
    var b := Begin(w);
    ScanAllLeavesArmed(b);
    var v := Tick(w).0;
    assert v.main + v.newly == v.main;
    if v.main != [] {
      assert v.main[0] in v.main + v.newly;
    }
  }

  /** Later it need not be: an event armed and disarmed again stays linked. */
  lemma DisarmedStaysLinked<T>(w: Wheel<T>, t: T, n: nat, interval: nat)
    requires Inv(w) && t in w.timers && n > 0
    requires forall x :: x in w.timers ==> w.timers[x].ctr == 0
    ensures var v := Disarm(Arm(w, t, n, interval), t);
            && (forall x :: x in v.timers ==> v.timers[x].ctr == 0)
            && v.main + v.newly != []
  {
    LinkKeepsLists(w, t);
    var v := Disarm(Arm(w, t, n, interval), t);
    assert t in v.main + v.newly;
  }

  /** What QF_noTimeEvtsActiveX answers, and what its documentation says it answers. */
  ghost predicate NothingLinked<T>(w: Wheel<T>) {
    w.main == [] && w.newly == []
  }

  ghost predicate NothingArmed<T>(w: Wheel<T>) {
    forall t :: t in w.timers ==> w.timers[t].ctr == 0
  }

  ghost predicate Calls<T>(ops: seq<Op<T>>) {
    forall op <- ops :: !op.OpBegin? && !op.OpScan?
  }

  ghost predicate OnlyDisarms<T>(ops: seq<Op<T>>) {
    forall op <- ops :: op.OpDisarm?
  }

  /** Calls between ticks never unlink, and all but disarm link. */
  lemma {:induction false} CallsKeepLinks<T>(w: Wheel<T>, ops: seq<Op<T>>)
    requires Inv(w) && RunOk(w, ops) && Calls(ops)
    ensures NothingLinked(Exec(w, ops).0) <==> NothingLinked(w) && OnlyDisarms(ops)
    decreases |ops|
  {
    if ops != [] {
      var op := ops[0];
      ApplyKeepsInv(w, op);
      CallsKeepLinks(Apply(w, op).0, ops[1..]);
      assert ops == [op] + ops[1..];
      assert NothingLinked(Apply(w, op).0) <==> NothingLinked(w) && op.OpDisarm?;
    }
  }

  /** The same after a tick without interleaving: the answer "nothing linked" is the same
      as "nothing armed" if and only if something is armed, or nothing was armed after the
      tick and nothing was armed or rearmed since. */
  lemma AtomicAnswerIsRightIff<T>(w: Wheel<T>, ops: seq<Op<T>>)
    requires Inv(w) && RunOk(Tick(w).0, ops) && Calls(ops)
    ensures var v, u := Tick(w).0, Exec(Tick(w).0, ops).0;
            (NothingLinked(u) <==> NothingArmed(u))
            <==> !NothingArmed(u) || (NothingArmed(v) && OnlyDisarms(ops))
  {
    var v := Tick(w).0;
    var u := Exec(v, ops).0;
    TickLeavesExactlyArmed(w);
    CallsKeepLinks(v, ops);
    if NothingLinked(u) {
      assert u.main + u.newly == [];
    }
  }

  /** That condition does not survive interleaving: an event disarmed during the tick, after
      the scan has passed it, is still linked when the tick is complete. */
  lemma DisarmedDuringTick()
    ensures var w, ops := Wheel([7], [], map[7 := Timer(5, 0)], 0), [OpBegin, OpScan, OpDisarm(7)];
            && Inv(w) && RunOk(w, ops)
            && var u := Exec(w, ops).0;
            && ScanDone(u) && NothingArmed(u) && !NothingLinked(u)
  {
    var w := Wheel([7], [], map[7 := Timer(5, 0)], 0);
    var ops := [OpBegin, OpScan, OpDisarm(7)];
    var v := w.(timers := w.timers[7 := Timer(4, 0)], pos := 1);
    assert w.main + w.newly == [7];
    assert Scan(Begin(w)).0 == v;
    assert ops[1..] == [OpScan, OpDisarm(7)] && ops[1..][1..] == [OpDisarm(7)];
    assert v.main + v.newly == [7];
    assert Exec(v, [OpDisarm(7)]).0 == Disarm(v, 7);
  }

  // ------------------------------------------------------------------
  // When the answer is right, with interleaving

  ghost predicate Linked<T>(w: Wheel<T>, t: T) {
    t in w.main + w.newly
  }

  /** Has `t` been armed at some moment since the scan last passed it?  `m` says so of the
      moment before the step. */
  ghost predicate ArmedSinceStep<T>(w: Wheel<T>, op: Op<T>, t: T, m: bool)
    requires Inv(w) && Enabled(w, op)
  {
    match op
    case OpBegin => m
    case OpScan => ScanHandlesNext(w); if t == Pending(w)[0] then TickTimer(w.timers[t]).ctr > 0 else m
    case OpArm(x, _, _) => m || x == t
    case OpDisarm(_) => m
    case OpRearm(x, _) => m || x == t
  }

  ghost predicate ArmedSince<T>(w: Wheel<T>, ops: seq<Op<T>>, t: T, m: bool)
    requires Inv(w) && RunOk(w, ops)
    decreases |ops|
  {
    if ops == [] then m
    else
      ApplyKeepsInv(w, ops[0]);
      ArmedSince(Apply(w, ops[0]).0, ops[1..], t, ArmedSinceStep(w, ops[0], t, m))
  }

  /** The linked events are those behind the scan and those before it. */
  lemma LinkedIsPassedOrPending<T>(w: Wheel<T>, t: T)
    requires Inv(w)
    ensures Linked(w, t) <==> t in w.main[..w.pos] || t in Pending(w)
  {
    assert w.main + w.newly == w.main[..w.pos] + Pending(w);
  }

  /** An event is linked exactly if it has been armed since the scan last passed it. */
  lemma StepKeepsMark<T>(w: Wheel<T>, op: Op<T>, t: T)
    requires Inv(w) && Enabled(w, op)
    ensures ArmedSinceStep(w, op, t, Linked(w, t)) <==> Linked(Apply(w, op).0, t)
  {
    match op
    case OpBegin =>
    case OpScan => ScanKeepsMark(w, t);
    case OpArm(x, n, i) => LinkKeepsLists(w, x);
    case OpDisarm(x) =>
    case OpRearm(x, n) => LinkKeepsLists(w, x);
  }

  lemma ScanKeepsMark<T>(w: Wheel<T>, t: T)
    requires Inv(w) && !ScanDone(w)
    ensures ArmedSinceStep(w, OpScan, t, Linked(w, t)) <==> Linked(Scan(w).0, t)
  {
    ScanHandlesNext(w);
    var v := Scan(w).0;
    NoDupPending(w);
    HeadIsOnce(Pending(w), t);
    PassedNotPending(w, t);
    LinkedIsPassedOrPending(w, t);
    LinkedIsPassedOrPending(v, t);
  }

  lemma {:induction false} RunKeepsMark<T>(w: Wheel<T>, ops: seq<Op<T>>, t: T)
    requires Inv(w) && RunOk(w, ops)
    ensures ArmedSince(w, ops, t, Linked(w, t)) <==> Linked(Exec(w, ops).0, t)
    decreases |ops|
  {
    if ops != [] {
      ApplyKeepsInv(w, ops[0]);
      StepKeepsMark(w, ops[0], t);
      RunKeepsMark(Apply(w, ops[0]).0, ops[1..], t);
    }
  }

  lemma AnswerFromLinks<T>(u: Wheel<T>)
    requires Inv(u)
    ensures NothingLinked(u) <==> forall t :: t in u.timers ==> !Linked(u, t)
    ensures NothingLinked(u) ==> NothingArmed(u)
  {
    if !NothingLinked(u) {
      assert Linked(u, (u.main + u.newly)[0]);
    }
  }

  /** From start-up, at any moment of any run whatsoever, in the middle of a scan or not,
      the answer "nothing linked" is the same as "nothing armed" if and only if something
      is armed, or no event has been armed since the scan last passed it. */
  lemma AnswerIsRightIff<T>(w: Wheel<T>, ops: seq<Op<T>>)
    requires Inv(w) && NothingLinked(w) && RunOk(w, ops)
    ensures var u := Exec(w, ops).0;
            (NothingLinked(u) <==> NothingArmed(u))
            <==> !NothingArmed(u) || forall t :: t in u.timers ==> !ArmedSince(w, ops, t, false)
  {
    var u := Exec(w, ops).0;
    forall t | t in u.timers ensures ArmedSince(w, ops, t, false) <==> Linked(u, t) {
      assert !Linked(w, t);
      RunKeepsMark(w, ops, t);
    }
    AnswerFromLinks(u);
  }

  /** A complete scan passes every pending event, so what was before does not matter. */
  lemma {:induction false} ScanForgets<T>(v: Wheel<T>, ops: seq<Op<T>>, t: T)
    requires Inv(v) && RunOk(v, ops) && t in Pending(v)
    requires forall op <- ops :: !op.OpBegin?
    requires ScanDone(Exec(v, ops).0)
    ensures ArmedSince(v, ops, t, false) == ArmedSince(v, ops, t, true)
    decreases |ops|
  {
    if ops != [] {
      var op := ops[0];
      ApplyKeepsInv(v, op);
      if ArmedSinceStep(v, op, t, false) != ArmedSinceStep(v, op, t, true) {
        StillPending(v, op, t);
        ScanForgets(Apply(v, op).0, ops[1..], t);
      }
    }
  }

  lemma StillPending<T>(v: Wheel<T>, op: Op<T>, t: T)
    requires Inv(v) && Enabled(v, op) && !op.OpBegin? && t in Pending(v)
    requires ArmedSinceStep(v, op, t, false) != ArmedSinceStep(v, op, t, true)
    ensures Inv(Apply(v, op).0) && t in Pending(Apply(v, op).0)
  {
    ApplyKeepsInv(v, op);
    if op.OpScan? {
      ScanHandlesNext(v);
      assert Pending(v) == [Pending(v)[0]] + Pending(v)[1..];
    } else if op.OpArm? || op.OpRearm? {
      LinkKeepsPending(v, op.t, t);
    }
  }

  datatype Act<T> = ActTick | ActCall(op: Op<T>)

  ghost predicate ActsOk<T>(w: Wheel<T>, acts: seq<Act<T>>)
    requires Inv(w)
    decreases |acts|
  {
    acts == [] ||
    match acts[0]
    case ActTick => ActsOk(Tick(w).0, acts[1..])
    case ActCall(op) =>
      !op.OpScan? && !op.OpBegin? && Enabled(w, op) &&
      (ApplyKeepsInv(w, op); ActsOk(Apply(w, op).0, acts[1..]))
  }

  /** The events posted by each tick of a run. */
  ghost function PostsPerTick<T>(w: Wheel<T>, acts: seq<Act<T>>): seq<seq<T>>
    requires Inv(w) && ActsOk(w, acts)
    decreases |acts|
  {
    if acts == [] then []
    else
      match acts[0]
      case ActTick => [Tick(w).1] + PostsPerTick(Tick(w).0, acts[1..])
      case ActCall(op) => ApplyKeepsInv(w, op); PostsPerTick(Apply(w, op).0, acts[1..])
  }

  /** Does the timer expire at the k-th tick from now? */
  predicate FiresAt(tm: Timer, k: nat) {
    tm.ctr > 0 && (k == tm.ctr || (tm.interval > 0 && k > tm.ctr && (k - tm.ctr) % tm.interval == 0))
  }

  lemma FiresAtShifts(tm: Timer, k: nat)
    requires k >= 1
    ensures FiresAt(TickTimer(tm), k) <==> FiresAt(tm, k + 1)
    ensures FiresAt(tm, 1) <==> tm.ctr == 1
  {
    var i := tm.interval;
    if tm.ctr == 1 && i > 0 {
      if k >= i {
        ModShift(k - i, i);
      } else {
        ModSmall(k, i);
      }
    }
  }

  lemma ModSmall(x: nat, i: nat)
    requires x < i
    ensures x % i == x
  {
  }

  /** The timer after k ticks. */
  function Ticked(tm: Timer, k: nat): Timer {
    if k == 0 then tm else TickTimer(Ticked(tm, k - 1))
  }

  lemma {:induction false} TickedFront(tm: Timer, k: nat)
    ensures Ticked(TickTimer(tm), k) == Ticked(tm, k + 1)
  {
    if k > 0 {
      TickedFront(tm, k - 1);
    }
  }

  /** It expires at the k-th tick when it has one tick left after k - 1. */
  predicate Expires(tm: Timer, k: nat)
    requires k > 0
  {
    Ticked(tm, k - 1).ctr == 1
  }

  lemma {:induction false} ExpiresIsFiresAt(tm: Timer, k: nat)
    requires k > 0
    ensures Expires(tm, k) <==> FiresAt(tm, k)
    decreases k
  {
    FiresAtShifts(tm, if k == 1 then 1 else k - 1);
    if k > 1 {
      ExpiresIsFiresAt(TickTimer(tm), k - 1);
      TickedFront(tm, k - 2);
    }
  }

  lemma {:induction false} ExpiresOnSchedule<T>(w: Wheel<T>, acts: seq<Act<T>>, t: T, k: nat)
    requires Inv(w) && ActsOk(w, acts) && t in w.timers
    requires forall a <- acts :: a.ActCall? ==> !Touches(a.op, t)
    requires k < |PostsPerTick(w, acts)|
    ensures Count(PostsPerTick(w, acts)[k], t) == (if Expires(w.timers[t], k + 1) then 1 else 0)
    decreases |acts|
  {
    match acts[0]
    case ActTick =>
      TickIsPointwise(w);
      if k > 0 {
        TickedFront(w.timers[t], k - 1);
        ExpiresOnSchedule(Tick(w).0, acts[1..], t, k - 1);
      }
    case ActCall(op) =>
      ApplyKeepsInv(w, op);
      ExpiresOnSchedule(Apply(w, op).0, acts[1..], t, k);
  }

  /** An event left alone is posted at exactly the ticks its counter and interval
      say, whatever happens to the other events. */
  lemma FiresOnSchedule<T>(w: Wheel<T>, acts: seq<Act<T>>, t: T, k: nat)
    requires Inv(w) && ActsOk(w, acts) && t in w.timers
    requires forall a <- acts :: a.ActCall? ==> !Touches(a.op, t)
    requires k < |PostsPerTick(w, acts)|
    ensures Count(PostsPerTick(w, acts)[k], t) == (if FiresAt(w.timers[t], k + 1) then 1 else 0)
  {
    ExpiresOnSchedule(w, acts, t, k);
    ExpiresIsFiresAt(w.timers[t], k + 1);
  }

  /** In particular, armed with `n`, linked or not at that moment: at exactly the n-th
      tick, then every `interval` ticks, or never again if one-shot. */
  lemma ArmedFiresOnSchedule<T>(w: Wheel<T>, t: T, n: nat, interval: nat, acts: seq<Act<T>>, k: nat)
    requires Inv(w) && ActsOk(w, [ActCall(OpArm(t, n, interval))] + acts)
    requires forall a <- acts :: a.ActCall? ==> !Touches(a.op, t)
    requires k < |PostsPerTick(w, [ActCall(OpArm(t, n, interval))] + acts)|
    ensures Count(PostsPerTick(w, [ActCall(OpArm(t, n, interval))] + acts)[k], t) ==
            if k + 1 == n || (interval > 0 && k + 1 > n && (k + 1 - n) % interval == 0) then 1 else 0
  {
    CallFirst(w, OpArm(t, n, interval), acts);
    FiresOnSchedule(Arm(w, t, n, interval), acts, t, k);
  }

  /** Disarmed, it is never posted. */
  lemma DisarmedNeverFires<T>(w: Wheel<T>, t: T, acts: seq<Act<T>>, k: nat)
    requires Inv(w) && ActsOk(w, [ActCall(OpDisarm(t))] + acts)
    requires forall a <- acts :: a.ActCall? ==> !Touches(a.op, t)
    requires k < |PostsPerTick(w, [ActCall(OpDisarm(t))] + acts)|
    ensures Count(PostsPerTick(w, [ActCall(OpDisarm(t))] + acts)[k], t) == 0
  {
    CallFirst(w, OpDisarm(t), acts);
    FiresOnSchedule(Disarm(w, t), acts, t, k);
  }

  lemma CallFirst<T>(w: Wheel<T>, op: Op<T>, acts: seq<Act<T>>)
    requires Inv(w) && ActsOk(w, [ActCall(op)] + acts)
    ensures !op.OpScan? && !op.OpBegin? && Enabled(w, op) && Inv(Apply(w, op).0) && ActsOk(Apply(w, op).0, acts)
    ensures PostsPerTick(w, [ActCall(op)] + acts) == PostsPerTick(Apply(w, op).0, acts)
  {
    var all := [ActCall(op)] + acts;
    assert all[0] == ActCall(op) && all[1..] == acts;
    ApplyKeepsInv(w, op);
  }

  /** Rearmed with `n`, armed or not and linked or not at that moment: at exactly the n-th
      tick from then, whatever its counter was, and then at the interval it has. */
  lemma RearmedFiresOnSchedule<T>(w: Wheel<T>, t: T, n: nat, acts: seq<Act<T>>, k: nat)
    requires Inv(w) && ActsOk(w, [ActCall(OpRearm(t, n))] + acts)
    requires forall a <- acts :: a.ActCall? ==> !Touches(a.op, t)
    requires k < |PostsPerTick(w, [ActCall(OpRearm(t, n))] + acts)|
    ensures t in w.timers
    ensures Count(PostsPerTick(w, [ActCall(OpRearm(t, n))] + acts)[k], t) ==
            if FiresAt(Timer(n, w.timers[t].interval), k + 1) then 1 else 0
  {
    CallFirst(w, OpRearm(t, n), acts);
    FiresOnSchedule(Rearm(w, t, n), acts, t, k);
  }

  /** The interval survives a disarm. */
  lemma DisarmedThenRearmed<T>(w: Wheel<T>, t: T, n: nat, acts: seq<Act<T>>, k: nat)
    requires Inv(w) && t in w.timers && n > 0 && Inv(Disarm(w, t))
    requires ActsOk(Disarm(w, t), [ActCall(OpRearm(t, n))] + acts)
    requires forall a <- acts :: a.ActCall? ==> !Touches(a.op, t)
    requires k < |PostsPerTick(Disarm(w, t), [ActCall(OpRearm(t, n))] + acts)|
    ensures Count(PostsPerTick(Disarm(w, t), [ActCall(OpRearm(t, n))] + acts)[k], t) ==
            if FiresAt(Timer(n, w.timers[t].interval), k + 1) then 1 else 0
  {
    RearmedFiresOnSchedule(Disarm(w, t), t, n, acts, k);
  }

  /** One tick with interleaving: calls during its scan, then calls before the next. */
  datatype TickRun<T> = TickRun(scan: seq<Op<T>>, idle: seq<Op<T>>)

  ghost predicate Untouched<T>(r: TickRun<T>, t: T) {
    (forall op <- r.scan :: !Touches(op, t)) && (forall op <- r.idle :: !Touches(op, t))
  }

  ghost predicate TickRunOk<T>(w: Wheel<T>, r: TickRun<T>)
    requires Inv(w)
  {
    && RunOk(w, [OpBegin] + r.scan)
    && (forall op <- r.scan :: !op.OpBegin?)
    && ScanDone(Exec(w, [OpBegin] + r.scan).0)
    && RunOk(Exec(w, [OpBegin] + r.scan).0, r.idle)
    && (forall op <- r.idle :: !op.OpBegin? && !op.OpScan?)
  }

  ghost function AfterTickRun<T>(w: Wheel<T>, r: TickRun<T>): (v: Wheel<T>)
    requires Inv(w) && TickRunOk(w, r)
    ensures Inv(v) && v.timers.Keys == w.timers.Keys
  {
    Exec(Exec(w, [OpBegin] + r.scan).0, r.idle).0
  }

  /** Since the scan of this tick passed it, or since the tick began. */
  ghost predicate ArmedSincePass<T>(w: Wheel<T>, r: TickRun<T>, t: T)
    requires Inv(w) && TickRunOk(w, r)
  {
    ArmedSince(Exec(w, [OpBegin] + r.scan).0, r.idle, t, ArmedSince(w, [OpBegin] + r.scan, t, false))
  }

  lemma TickMarks<T>(w: Wheel<T>, r: TickRun<T>, t: T)
    requires Inv(w) && TickRunOk(w, r)
    ensures ArmedSincePass(w, r, t) <==> Linked(AfterTickRun(w, r), t)
  {
    var all, v := [OpBegin] + r.scan, Begin(w);
    assert all[0] == OpBegin && all[1..] == r.scan;
    ApplyKeepsInv(w, OpBegin);
    assert Pending(v) == w.main + w.newly;
    if Linked(w, t) {
      ScanForgets(v, r.scan, t);
    }
    RunKeepsMark(w, all, t);
    RunKeepsMark(Exec(w, all).0, r.idle, t);
  }

  /** The same after any tick, whatever calls came between its critical sections and after
      it, from any state: what was armed before the tick does not matter. */
  lemma InterleavedAnswerIsRightIff<T>(w: Wheel<T>, r: TickRun<T>)
    requires Inv(w) && TickRunOk(w, r)
    ensures var u := AfterTickRun(w, r);
            (NothingLinked(u) <==> NothingArmed(u))
            <==> !NothingArmed(u) || forall t :: t in u.timers ==> !ArmedSincePass(w, r, t)
  {
    var u := AfterTickRun(w, r);
    forall t | t in u.timers ensures ArmedSincePass(w, r, t) <==> Linked(u, t) {
      TickMarks(w, r, t);
    }
    AnswerFromLinks(u);
  }

  /** Any number of interleaved ticks: the state before each and after the last, and the
      events posted during each. */
  datatype History<T> = History(runs: seq<TickRun<T>>, states: seq<Wheel<T>>, posts: seq<seq<T>>)

  ghost predicate TickStep<T>(w: Wheel<T>, r: TickRun<T>, v: Wheel<T>, posts: seq<T>) {
    Inv(w) && TickRunOk(w, r) && v == AfterTickRun(w, r) && posts == Exec(w, [OpBegin] + r.scan).1
  }

  ghost predicate Ticking<T>(h: History<T>) {
    && |h.states| == |h.runs| + 1 && |h.posts| == |h.runs|
    && forall i :: 0 <= i < |h.runs| ==> TickStep(h.states[i], h.runs[i], h.states[i + 1], h.posts[i])
  }

  /** Over an interleaved tick and the calls after it, an untouched event is ticked
      exactly once. */
  lemma TickRunTicks<T>(w: Wheel<T>, r: TickRun<T>, t: T)
    requires Inv(w) && TickRunOk(w, r) && t in w.timers
    requires Untouched(r, t)
    ensures AfterTickRun(w, r).timers[t] == TickTimer(w.timers[t])
    ensures Count(Exec(w, [OpBegin] + r.scan).1, t) == (if w.timers[t].ctr == 1 then 1 else 0)
  {
    InterleavedTick(w, r.scan, t);
    var v := Exec(w, [OpBegin] + r.scan).0;
    assert Pending(v) == [];
    HandledAtMostOnce(v, r.idle, t);
  }

  lemma StepTicks<T>(w: Wheel<T>, r: TickRun<T>, v: Wheel<T>, posts: seq<T>, t: T)
    requires TickStep(w, r, v, posts) && t in w.timers && Untouched(r, t)
    ensures t in v.timers && v.timers[t] == TickTimer(w.timers[t])
    ensures Count(posts, t) == (if w.timers[t].ctr == 1 then 1 else 0)
  {
    TickRunTicks(w, r, t);
  }

  lemma {:induction false} StateAfterTicks<T>(h: History<T>, t: T, k: nat)
    requires Ticking(h) && t in h.states[0].timers && k <= |h.runs| && forall r <- h.runs :: Untouched(r, t)
    ensures t in h.states[k].timers && h.states[k].timers[t] == Ticked(h.states[0].timers[t], k)
    decreases k
  {
    if k > 0 {
      StateAfterTicks(h, t, k - 1);
      StepTicks(h.states[k - 1], h.runs[k - 1], h.states[k], h.posts[k - 1], t);
    }
  }

  lemma InterleavedExpires<T>(h: History<T>, t: T, k: nat)
    requires Ticking(h) && t in h.states[0].timers && k < |h.runs| && forall r <- h.runs :: Untouched(r, t)
    ensures Count(h.posts[k], t) == (if Expires(h.states[0].timers[t], k + 1) then 1 else 0)
  {
    StateAfterTicks(h, t, k);
    StepTicks(h.states[k], h.runs[k], h.states[k + 1], h.posts[k], t);
  }

  /** The schedule is kept even when calls for other events interleave with the
      critical sections of every scan. */
  lemma InterleavedFiresOnSchedule<T>(h: History<T>, t: T, k: nat)
    requires Ticking(h) && t in h.states[0].timers && k < |h.runs| && forall r <- h.runs :: Untouched(r, t)
    ensures Count(h.posts[k], t) == (if FiresAt(h.states[0].timers[t], k + 1) then 1 else 0)
  {
    InterleavedExpires(h, t, k);
    ExpiresIsFiresAt(h.states[0].timers[t], k + 1);
  }

  /** The rest of a scan from any point of it, with calls for other events in between,
      ends in `u` and posts `posts`. */
  ghost predicate RestOfScan<T>(v: Wheel<T>, rest: seq<Op<T>>, t: T, u: Wheel<T>, posts: seq<T>) {
    && Inv(v) && RunOk(v, rest) && (forall op <- rest :: !op.OpBegin? && !Touches(op, t))
    && Exec(v, rest) == (u, posts) && ScanDone(u)
  }

  lemma RestOfScanTicks<T>(v: Wheel<T>, rest: seq<Op<T>>, t: T, u: Wheel<T>, posts: seq<T>)
    requires RestOfScan(v, rest, t, u, posts) && t in v.timers
    ensures t in u.timers && u.timers[t] == (if t in Pending(v) then TickTimer(v.timers[t]) else v.timers[t])
    ensures Count(posts, t) == (if t in Pending(v) && v.timers[t].ctr == 1 then 1 else 0)
  {
    HandledAtMostOnce(v, rest, t);
    assert Pending(u) == [];
  }

  /** An event armed in the middle of a scan counts the current tick if and only if the
      scan has not passed it yet: an event that was still linked, behind the scan, waits
      for the next tick, any other is handled by this one.  `h` are the ticks after it. */
  lemma ArmedDuringScan<T>(w: Wheel<T>, t: T, n: nat, interval: nat, rest: seq<Op<T>>, posts: seq<T>, h: History<T>, k: nat)
    requires Inv(w) && Enabled(w, OpArm(t, n, interval))
    requires Ticking(h) && k < |h.runs| && forall r <- h.runs :: Untouched(r, t)
    requires RestOfScan(Arm(w, t, n, interval), rest, t, h.states[0], posts)
    ensures var counts := t !in w.main[..w.pos];
            && Count(posts, t) == (if counts && n == 1 then 1 else 0)
            && Count(h.posts[k], t) == (if FiresAt(Timer(n, interval), k + 1 + (if counts then 1 else 0)) then 1 else 0)
  {
    ArmedRestTicks(w, t, n, interval, rest, posts, h.states[0]);
    FiresFrom(h, t, k, Timer(n, interval), if t !in w.main[..w.pos] then 1 else 0);
  }

  /** The same of an event rearmed in the middle of a scan, whatever its counter was. */
  lemma RearmedDuringScan<T>(w: Wheel<T>, t: T, n: nat, rest: seq<Op<T>>, posts: seq<T>, h: History<T>, k: nat)
    requires Inv(w) && Enabled(w, OpRearm(t, n))
    requires Ticking(h) && k < |h.runs| && forall r <- h.runs :: Untouched(r, t)
    requires RestOfScan(Rearm(w, t, n), rest, t, h.states[0], posts)
    ensures var counts := t !in w.main[..w.pos];
            var tm := Timer(n, w.timers[t].interval);
            && Count(posts, t) == (if counts && n == 1 then 1 else 0)
            && Count(h.posts[k], t) == (if FiresAt(tm, k + 1 + (if counts then 1 else 0)) then 1 else 0)
  {
    var interval := w.timers[t].interval;
    assert Rearm(w, t, n) == Arm(w, t, n, interval);
    ArmedRestTicks(w, t, n, interval, rest, posts, h.states[0]);
    FiresFrom(h, t, k, Timer(n, interval), if t !in w.main[..w.pos] then 1 else 0);
  }

  lemma ArmedRestTicks<T>(w: Wheel<T>, t: T, n: nat, interval: nat, rest: seq<Op<T>>, posts: seq<T>, u: Wheel<T>)
    requires Inv(w) && t in w.timers && RestOfScan(Arm(w, t, n, interval), rest, t, u, posts)
    ensures t in u.timers && u.timers[t] == Ticked(Timer(n, interval), if t !in w.main[..w.pos] then 1 else 0)
    ensures Count(posts, t) == (if t !in w.main[..w.pos] && n == 1 then 1 else 0)
  {
    ArmedIsPending(w, t, n, interval);
    RestOfScanTicks(Arm(w, t, n, interval), rest, t, u, posts);
    assert Ticked(Timer(n, interval), 1) == TickTimer(Ticked(Timer(n, interval), 0));
  }

  lemma FiresFrom<T>(h: History<T>, t: T, k: nat, tm: Timer, done: nat)
    requires Ticking(h) && k < |h.runs| && (forall r <- h.runs :: Untouched(r, t))
    requires t in h.states[0].timers && h.states[0].timers[t] == Ticked(tm, done)
    ensures Count(h.posts[k], t) == (if FiresAt(tm, k + 1 + done) then 1 else 0)
  {
    InterleavedExpires(h, t, k);
    TickedTwice(tm, done, k);
    ExpiresIsFiresAt(tm, k + 1 + done);
  }

  lemma {:induction false} TickedTwice(tm: Timer, i: nat, j: nat)
    ensures Ticked(Ticked(tm, i), j) == Ticked(tm, i + j)
  {
    if j > 0 {
      TickedTwice(tm, i, j - 1);
    }
  }

  lemma ArmedIsPending<T>(w: Wheel<T>, t: T, n: nat, interval: nat)
    requires Inv(w) && t in w.timers
    ensures t in Pending(Arm(w, t, n, interval)) <==> t !in w.main[..w.pos]
  {
    var p := Pending(Arm(w, t, n, interval));
    PassedNotPending(w, t);
    assert w.main == w.main[..w.pos] + w.main[w.pos..];
    if t !in w.main && t !in w.newly {
      assert p == w.main[w.pos..] + ([t] + w.newly);
    } else {
      assert p == Pending(w);
    }
  }
}

/** The ready queues, their two-level bitmap and the release queue of the WellsL4 kernel,
    as values.  A thread's ready_q_prev and ready_q_next serve whichever list it is on. */
module ThreadSpec {
  import opened Arith
  import opened Basics
  import opened LinkSpec

  const NUM_PRIORITIES: nat := 256
  const WORD_BITS: nat := 32
  const L2_BITMAP_BITS: nat := 8

  type Word = w: seq<bool> | |w| == 32 witness seq(32, _ => false)

  const ZERO: Word := seq(32, _ => false)

  type Level2 = ws: seq<Word> | |ws| == 8 witness seq(8, _ => ZERO)

  const ZEROS: Level2 := seq(8, _ => ZERO)

  predicate NonZero(w: Word) {
    true in w
  }

  // ------------------------------------------------------------------
  // Coordinates of a ready queue

  /** ready_queues_index; with one domain only `dom == 0` is legal. */
  function Index(dom: nat, prio: nat): nat {
    dom * NUM_PRIORITIES + prio
  }

  function DomOf(k: nat): nat {
    k / NUM_PRIORITIES
  }

  /** prio_to_l1index */
  function L1Of(k: nat): (i: nat)
    ensures i < L2_BITMAP_BITS
  {
    (k % NUM_PRIORITIES) / WORD_BITS
  }

  /** invert_l1index */
  function Invert(i: nat): (r: nat)
    requires i < L2_BITMAP_BITS
    ensures r < L2_BITMAP_BITS && L2_BITMAP_BITS - 1 - r == i
  {
    L2_BITMAP_BITS - 1 - i
  }

  function BitOf(k: nat): (b: nat)
    ensures b < WORD_BITS
  {
    k % WORD_BITS
  }

  lemma IndexCoordinates(dom: nat, prio: nat)
    requires prio < NUM_PRIORITIES
    ensures DomOf(Index(dom, prio)) == dom
    ensures L1Of(Index(dom, prio)) == prio / WORD_BITS
    ensures BitOf(Index(dom, prio)) == prio % WORD_BITS
  {
    assert Index(dom, prio) % NUM_PRIORITIES == prio;
    assert Index(dom, prio) == (dom * 8 + prio / 32) * 32 + prio % 32;
  }

  /** The coordinates name the queue. */
  lemma CoordinatesUnique(j: nat, k: nat)
    requires DomOf(j) == DomOf(k) && L1Of(j) == L1Of(k) && BitOf(j) == BitOf(k)
    ensures j == k
  {
    Recombine(j);
    Recombine(k);
  }

  lemma Recombine(k: nat)
    ensures k == DomOf(k) * 256 + L1Of(k) * 32 + BitOf(k)
  {
    var q, r := k / 256, k % 256;
    assert k == q * 256 + r && r == (r / 32) * 32 + r % 32;
    DivModUnique(k, 32, q * 8 + r / 32, r % 32);
  }

  // ------------------------------------------------------------------
  // The bitmap

  predicate L2Bit(l2: seq<Level2>, k: nat)
    requires DomOf(k) < |l2|
  {
    l2[DomOf(k)][Invert(L1Of(k))][BitOf(k)]
  }

  /** A second-level bit is set iff its queue is not empty. */
  ghost predicate BitsMatch(l2: seq<Level2>, lists: seq<seq<Id>>) {
    forall k :: 0 <= k < |lists| ==> DomOf(k) < |l2| ==> (L2Bit(l2, k) <==> lists[k] != [])
  }

  /** A first-level bit is set iff the word at the inverted index is not zero. */
  ghost predicate Summary(l1: seq<Word>, l2: seq<Level2>, d: nat)
    requires d < |l1| && d < |l2|
  {
    forall i :: 0 <= i < WORD_BITS ==> (l1[d][i] <==> i < L2_BITMAP_BITS && NonZero(l2[d][Invert(i)]))
  }

  ghost predicate BitmapOk(l1: seq<Word>, l2: seq<Level2>, lists: seq<seq<Id>>) {
    && |l1| == |l2|
    && BitsMatch(l2, lists)
    && forall d :: 0 <= d < |l1| ==> Summary(l1, l2, d)
  }

  function SetBit(l2: seq<Level2>, k: nat, v: bool): (r: seq<Level2>)
    requires DomOf(k) < |l2|
    ensures |r| == |l2|
  {
    var d, i, b := DomOf(k), Invert(L1Of(k)), BitOf(k);
    l2[d := l2[d][i := l2[d][i][b := v]]]
  }

  lemma SetBitOnly(l2: seq<Level2>, k: nat, v: bool, j: nat)
    requires DomOf(k) < |l2| && DomOf(j) < |l2|
    ensures L2Bit(SetBit(l2, k, v), j) == if j == k then v else L2Bit(l2, j)
  {
    if DomOf(j) == DomOf(k) && L1Of(j) == L1Of(k) && BitOf(j) == BitOf(k) {
      CoordinatesUnique(j, k);
    }
  }

  lemma SetBitMatches(l2: seq<Level2>, k: nat, lists: seq<seq<Id>>, s: seq<Id>)
    requires k < |lists| && DomOf(k) < |l2| && BitsMatch(l2, lists)
    ensures BitsMatch(SetBit(l2, k, s != []), lists[k := s])
  {
    forall j | 0 <= j < |lists| && DomOf(j) < |l2|
      ensures L2Bit(SetBit(l2, k, s != []), j) <==> lists[k := s][j] != []
    {
      SetBitOnly(l2, k, s != [], j);
    }
  }

  lemma SummaryStep(l1: seq<Word>, l2: seq<Level2>, l1': seq<Word>, k: nat, v: bool)
    requires |l1| == |l2| && DomOf(k) < |l2| && forall d :: 0 <= d < |l1| ==> Summary(l1, l2, d)
    requires var w := SetBit(l2, k, v)[DomOf(k)][Invert(L1Of(k))];
             l1' == l1[DomOf(k) := l1[DomOf(k)][L1Of(k) := NonZero(w)]]
    ensures forall d :: 0 <= d < |l1'| ==> Summary(l1', SetBit(l2, k, v), d)
  {
    var l2' := SetBit(l2, k, v);
    forall d | 0 <= d < |l1'|
      ensures Summary(l1', l2', d)
    {
      assert Summary(l1, l2, d);
    }
  }

  lemma SetBitNonZero(l2: seq<Level2>, k: nat)
    requires DomOf(k) < |l2|
    ensures NonZero(SetBit(l2, k, true)[DomOf(k)][Invert(L1Of(k))])
  {
    assert SetBit(l2, k, true)[DomOf(k)][Invert(L1Of(k))][BitOf(k)];
  }

  /** A word that stays non-zero keeps its first-level bit. */
  lemma StillNonZero(l1: seq<Word>, l2: seq<Level2>, k: nat)
    requires |l1| == |l2| && DomOf(k) < |l2| && Summary(l1, l2, DomOf(k)) && L2Bit(l2, k)
    ensures l1[DomOf(k)] == l1[DomOf(k)][L1Of(k) := true]
  {
    assert true in l2[DomOf(k)][Invert(L1Of(k))];
    assert l1[DomOf(k)][L1Of(k)];
  }

  // ------------------------------------------------------------------
  // The release queue's order

  /** The head refill time of a thread on the release queue. */
  datatype Attr = Attr(dom: nat, prio: nat, time: nat)

  ghost predicate Known(attr: map<Id, Attr>, s: seq<Id>) {
    forall t <- s :: t in attr
  }

  ghost predicate Sorted(attr: map<Id, Attr>, s: seq<Id>)
    requires Known(attr, s)
  {
    forall i, j :: 0 <= i < j < |s| ==> attr[s[i]].time <= attr[s[j]].time
  }

  /** Where a thread due at `time` goes: after all that are due no later. */
  ghost predicate Place(attr: map<Id, Attr>, s: seq<Id>, i: nat, time: nat)
    requires Known(attr, s)
  {
    && i <= |s|
    && (forall j :: 0 <= j < i ==> attr[s[j]].time <= time)
    && (forall j :: i <= j < |s| ==> time < attr[s[j]].time)
  }

  lemma InsertedSorted(attr: map<Id, Attr>, s: seq<Id>, i: nat, t: Id)
    requires Known(attr, s) && Sorted(attr, s) && t in attr && Place(attr, s, i, attr[t].time)
    ensures Known(attr, Inserted(s, i, t)) && Sorted(attr, Inserted(s, i, t))
  {
  }

  lemma RemovedSorted(attr: map<Id, Attr>, s: seq<Id>, i: nat)
    requires Known(attr, s) && Sorted(attr, s) && i < |s|
    ensures Known(attr, RemoveAt(s, i)) && Sorted(attr, RemoveAt(s, i))
  {
  }

  /** The threads due at one time, in queue order. */
  ghost function DueAt(attr: map<Id, Attr>, s: seq<Id>, time: nat): seq<Id>
    requires Known(attr, s)
  {
    if s == [] then []
    else (if attr[s[0]].time == time then [s[0]] else []) + DueAt(attr, s[1..], time)
  }

  lemma {:induction false} DueAtJoin(attr: map<Id, Attr>, p: seq<Id>, q: seq<Id>, time: nat)
    requires Known(attr, p) && Known(attr, q)
    ensures Known(attr, p + q) && DueAt(attr, p + q, time) == DueAt(attr, p, time) + DueAt(attr, q, time)
  {
    if p == [] {
      assert p + q == q;
    } else {
      assert (p + q)[1..] == p[1..] + q;
      DueAtJoin(attr, p[1..], q, time);
    }
  }

  lemma {:induction false} NoneDueAt(attr: map<Id, Attr>, s: seq<Id>, time: nat)
    requires Known(attr, s) && forall t <- s :: attr[t].time != time
    ensures DueAt(attr, s, time) == []
  {
    if s != [] {
      NoneDueAt(attr, s[1..], time);
    }
  }

  /** Threads due at the same time are released in the order they arrived: the new one
      comes last among its equals and every other time is unaffected. */
  lemma ArrivalOrder(attr: map<Id, Attr>, s: seq<Id>, i: nat, t: Id, time: nat)
    requires Known(attr, s) && t in attr && Place(attr, s, i, attr[t].time)
    ensures Known(attr, Inserted(s, i, t))
    ensures DueAt(attr, Inserted(s, i, t), time)
            == DueAt(attr, s, time) + if attr[t].time == time then [t] else []
  {
    var p, q := s[..i], s[i..];
    assert s == p + q;
    DueAtJoin(attr, p, q, time);
    DueAtJoin(attr, p, [t], time);
    DueAtJoin(attr, p + [t], q, time);
    assert [t][1..] == [];
    if attr[t].time == time {
      NoneDueAt(attr, q, time);
    }
  }
}

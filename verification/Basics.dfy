/** Notions shared by the models. */
module Basics {

  datatype Option<T> = None | Some(value: T)

  predicate NoDup<T(==)>(s: seq<T>) {
    forall i, j :: 0 <= i < j < |s| ==> s[i] != s[j]
  }

  function At<T>(s: seq<T>, i: int): Option<T> {
    if 0 <= i < |s| then Some(s[i]) else None
  }

  function RemoveAt<T>(s: seq<T>, k: nat): (r: seq<T>)
    requires k < |s|
    ensures |r| == |s| - 1
  {
    s[..k] + s[k + 1..]
  }

  lemma Assoc<T>(a: seq<T>, b: seq<T>, c: seq<T>)
    ensures a + (b + c) == a + b + c
  {
  }

  function Count<T(==)>(s: seq<T>, x: T): nat {
    if s == [] then 0 else (if s[0] == x then 1 else 0) + Count(s[1..], x)
  }

  /** The ring slot `i` places behind slot `from`. */
  function Slot(from: nat, i: nat, end: nat): (k: nat)
    requires from < end && i <= end
    ensures k < end
  {
    if i <= from then from - i else from + end - i
  }

  /** Are more than `margin` units free, with the margin cast to the counter type? */
  predicate Grants(nFree: nat, margin: nat, range: nat)
    requires range > 0
  {
    nFree > margin % range
  }

  /** `low` is the least value ever seen, `now` the last. */
  ghost predicate LowWater(history: seq<nat>, now: nat, low: nat) {
    && history != [] && history[|history| - 1] == now
    && low in history && (forall x <- history :: low <= x)
  }

  lemma LowWaterStep(history: seq<nat>, now: nat, low: nat, next: nat)
    requires LowWater(history, now, low)
    ensures LowWater(history + [next], next, if low > next then next else low)
    ensures low <= now
  {
    assert history[|history| - 1] in history;
  }
}

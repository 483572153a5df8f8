/** The priority set of qpset.h, a bit per priority, and QF_LOG2 of qf_act.c, which
    finds the highest one.  A machine word is the sequence of its bits, the least
    significant first; shifting right drops low bits.  Element n is bit n - 1. */
module PrioSet {

  type Word = seq<bool>

  predicate NonZero(w: Word) {
    exists k :: 0 <= k < |w| && w[k]
  }

  /** x >> k */
  function Shr(w: Word, k: nat): Word
    requires k <= |w|
  {
    w[k..]
  }

  function Zero(n: nat): (w: Word)
    ensures |w| == n && forall k :: 0 <= k < n ==> !w[k]
  {
    seq(n, _ => false)
  }

  // ------------------------------------------------------------------
  // The highest bit

  /** `r` is the number of the highest bit set, counted from 1, or 0. */
  ghost predicate IsTop(w: Word, r: nat) {
    && r <= |w|
    && (r > 0 ==> w[r - 1])
    && (forall k :: r <= k < |w| ==> !w[k])
  }

  /** A non-zero upper part decides, otherwise only the lower part counts. */
  lemma TopShifts(w: Word, k: nat, r: nat)
    requires k <= |w|
    ensures NonZero(Shr(w, k)) && IsTop(Shr(w, k), r) ==> IsTop(w, r + k)
    ensures !NonZero(Shr(w, k)) && IsTop(w[..k], r) ==> IsTop(w, r)
  {
    if NonZero(Shr(w, k)) && IsTop(Shr(w, k), r) {
      assert r > 0;
      assert w[r - 1 + k] == Shr(w, k)[r - 1];
      forall i | r + k <= i < |w| ensures !w[i] {
        assert w[i] == Shr(w, k)[i - k];
      }
    } else if !NonZero(Shr(w, k)) {
      forall i | k <= i < |w| ensures !w[i] {
        assert w[i] == Shr(w, k)[i - k];
      }
    }
  }

  const LOG2_LUT: seq<nat> := [0, 1, 2, 2, 3, 3, 3, 3, 4, 4, 4, 4, 4, 4, 4, 4]

  function Bit(b: bool): nat {
    if b then 1 else 0
  }

  /** The value of a four-bit word, an index into the table. */
  function Nibble(w: Word): (v: nat)
    requires |w| == 4
    ensures v < 16
  {
    Bit(w[0]) + 2 * Bit(w[1]) + 4 * Bit(w[2]) + 8 * Bit(w[3])
  }

  lemma LutIsTop(w: Word)
    requires |w| == 4
    ensures IsTop(w, LOG2_LUT[Nibble(w)])
  {
  }

  /** One halving step of QF_LOG2: keep the upper part if it is non-zero. */
  method Halve(w: Word, k: nat, n0: nat) returns (x: Word, n: nat)
    requires |w| == 2 * k
    ensures |x| == k && n >= n0
    ensures forall r: nat :: IsTop(x, r) ==> IsTop(w, r + n - n0)
  {
    var t := Shr(w, k);
    forall r: nat
      ensures NonZero(t) && IsTop(t, r) ==> IsTop(w, r + k)
      ensures !NonZero(t) && IsTop(w[..k], r) ==> IsTop(w, r)
    {
      TopShifts(w, k, r);
    }
    if NonZero(t) {
      n := n0 + k;
      x := t;
    } else {
      n := n0;
      x := w[..k];
    }
  }

  /** QF_LOG2 on 32 bits. */
  method Log2(w: Word) returns (r: nat)
    requires |w| == 32
    ensures IsTop(w, r)
  {
    var x1, n1 := Halve(w, 16, 0);
    var x2, n2 := Halve(x1, 8, n1);
    var x3, n3 := Halve(x2, 4, n2);
    LutIsTop(x3);
    r := n3 + LOG2_LUT[Nibble(x3)];
  }

  // ------------------------------------------------------------------
  // Sets of priorities

  ghost predicate IsMax(s: set<nat>, m: nat) {
    if s == {} then m == 0 else m in s && forall x <- s :: x <= m
  }

  /** The highest element, 0 if there is none. */
  ghost function MaxOf(s: set<nat>): (m: nat)
    ensures IsMax(s, m)
  {
    if s == {} then 0
    else
      var x :| x in s;
      var rest := MaxOf(s - {x});
      assert s == (s - {x}) + {x};
      if rest > x then rest else x
  }

  lemma MaxUnique(s: set<nat>, m: nat)
    requires IsMax(s, m)
    ensures m == MaxOf(s)
  {
  }

  predicate HasBit(w: Word, n: nat) {
    1 <= n <= |w| && w[n - 1]
  }

  ghost function Elements(w: Word): set<nat> {
    set n | 1 <= n <= |w| && HasBit(w, n)
  }

  lemma TopIsMax(w: Word, r: nat)
    requires IsTop(w, r)
    ensures IsMax(Elements(w), r)
  {
    if r == 0 {
      assert Elements(w) == {};
    } else {
      assert r in Elements(w);
    }
  }

  /** The two words of a QPSet in its 64-element form; the 32-element form is the low
      word alone. */
  datatype Bits = Bits(lo: Word, hi: Word)

  ghost predicate TwoWords(b: Bits) {
    |b.lo| == 32 && |b.hi| == 32
  }

  ghost function ElemsOf(b: Bits): set<nat> {
    Elements(b.lo + b.hi)
  }

  lemma ElemsInRange(b: Bits, n: nat)
    requires TwoWords(b) && n in ElemsOf(b)
    ensures 1 <= n <= 64
  {
  }

  const EMPTY: Bits := Bits(Zero(32), Zero(32))

  /** QPSet_insert and QPSet_remove. */
  function SetTo(b: Bits, n: nat, v: bool): (r: Bits)
    requires TwoWords(b) && 1 <= n <= 64
    ensures TwoWords(r) && ElemsOf(r) == if v then ElemsOf(b) + {n} else ElemsOf(b) - {n}
  {
    var r := if n <= 32 then b.(lo := b.lo[n - 1 := v]) else b.(hi := b.hi[n - 33 := v]);
    assert r.lo + r.hi == (b.lo + b.hi)[n - 1 := v];
    r
  }

  /** QPSet_hasElement. */
  predicate Has(b: Bits, n: nat)
    requires TwoWords(b) && 1 <= n <= 64
    ensures Has(b, n) <==> n in ElemsOf(b)
  {
    if n <= 32 then b.lo[n - 1] else b.hi[n - 33]
  }

  /** QPSet_isEmpty. */
  predicate NoBits(b: Bits)
    requires TwoWords(b)
    ensures NoBits(b) <==> ElemsOf(b) == {}
  {
    NonZeroHasElement(b);
    if !NonZero(b.lo) then !NonZero(b.hi) else false
  }

  lemma NonZeroHasElement(b: Bits)
    requires TwoWords(b)
    ensures NonZero(b.lo) || NonZero(b.hi) <==> ElemsOf(b) != {}
  {
    var w := b.lo + b.hi;
    if NonZero(b.lo) {
      var k :| 0 <= k < 32 && b.lo[k];
      assert HasBit(w, k + 1) && k + 1 in ElemsOf(b);
    } else if NonZero(b.hi) {
      var k :| 0 <= k < 32 && b.hi[k];
      assert w[k + 32] && HasBit(w, k + 33) && k + 33 in ElemsOf(b);
    }
  }

  /** QPSet_findMax. */
  method FindMax(b: Bits) returns (n: nat)
    requires TwoWords(b)
    ensures IsMax(ElemsOf(b), n)
  {
    ghost var w := b.lo + b.hi;
    assert Shr(w, 32) == b.hi && w[..32] == b.lo;
    var r;
    if NonZero(b.hi) {
      r := Log2(b.hi);
      n := r + 32;
    } else {
      r := Log2(b.lo);
      n := r;
    }
    TopShifts(w, 32, r);
    TopIsMax(w, n);
  }

  /** A QPSet that is updated in place. */
  class QPSet {
    var bits: Bits

    ghost predicate Valid()
      reads this
    {
      TwoWords(bits)
    }

    ghost function Elems(): set<nat>
      reads this
    {
      ElemsOf(bits)
    }

    constructor ()
      ensures Valid() && Elems() == {}
    {
      bits := EMPTY;
    }

    constructor Copy(s: QPSet)
      requires s.Valid()
      ensures Valid() && Elems() == s.Elems()
    {
      bits := s.bits;
    }

    method IsEmpty() returns (r: bool)
      requires Valid()
      ensures r <==> Elems() == {}
    {
      r := NoBits(bits);
    }

    method HasElement(n: nat) returns (r: bool)
      requires Valid() && 1 <= n <= 64
      ensures r <==> n in Elems()
    {
      r := Has(bits, n);
    }

    method Insert(n: nat)
      requires Valid() && 1 <= n <= 64
      modifies this
      ensures Valid() && Elems() == old(Elems()) + {n}
    {
      bits := SetTo(bits, n, true);
    }

    method Remove(n: nat)
      requires Valid() && 1 <= n <= 64
      modifies this
      ensures Valid() && Elems() == old(Elems()) - {n}
    {
      bits := SetTo(bits, n, false);
    }

    method Max() returns (n: nat)
      requires Valid()
      ensures IsMax(Elems(), n)
    {
      n := FindMax(bits);
    }
  }
}

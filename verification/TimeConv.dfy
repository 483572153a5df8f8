/** The time-unit converter `tmcvt` of the kernel: three ways to compute one rational
    number, in 64- and 32-bit arithmetic. */
module TimeConv {
  import opened Arith

  const W32: nat := 0x1_0000_0000
  const W64: nat := 0x1_0000_0000_0000_0000

  function Product(a: nat, b: nat): nat {
    a * b
  }

  function Quotient(a: nat, b: nat): nat
    requires b > 0
  {
    a / b
  }

  function Low32(x: nat): nat {
    x % W32
  }

  function Low64(x: nat): nat {
    x % W64
  }

  // ------------------------------------------------------------------
  // What a conversion should return

  datatype Mode = Down | Nearest | Up

  /** q is n / d rounded as asked; a tie goes up. */
  predicate Rounded(mode: Mode, n: int, d: int, q: int) {
    match mode
    case Down => q * d <= n < q * d + d
    case Up => q * d - d < n <= q * d
    case Nearest => 2 * (q * d) <= 2 * n + d < 2 * (q * d) + 2 * d
  }

  lemma RoundedMonotone(mode: Mode, n: int, m: int, d: int, q: int, r: int)
    requires d > 0 && n <= m && Rounded(mode, n, d, q) && Rounded(mode, m, d, r)
    ensures q <= r
  {
    assert q * d - r * d == (q - r) * d;
    if q > r {
      MulAtLeast(q - r, d);
      assert false;
    }
  }

  lemma RoundedUnique(mode: Mode, n: int, d: int, q: int, r: int)
    requires d > 0 && Rounded(mode, n, d, q) && Rounded(mode, n, d, r)
    ensures q == r
  {
    RoundedMonotone(mode, n, n, d, q, r);
    RoundedMonotone(mode, n, n, d, r, q);
  }

  lemma RoundedScales(mode: Mode, n: int, d: int, c: int, q: int)
    requires c > 0 && Rounded(mode, n, d, q)
    ensures Rounded(mode, n * c, d * c, q)
  {
    ScaledProduct(q, d, c);
    var p := q * d;
    match mode
    case Down => DownScales(n, d, c, p);
    case Up => UpScales(n, d, c, p);
    case Nearest => NearestScales(n, d, c, p);
  }

  lemma ScaledProduct(q: int, d: int, c: int)
    ensures q * (d * c) == (q * d) * c
  {
  }

  lemma Distributes(a: int, b: int, c: int)
    ensures (a + b) * c == a * c + b * c && (a - b) * c == a * c - b * c && (2 * a) * c == 2 * (a * c)
  {
  }

  lemma DownScales(n: int, d: int, c: int, p: int)
    requires c > 0 && p <= n < p + d
    ensures p * c <= n * c < p * c + d * c
  {
    MulMonotone(p, n, c);
    Below(n, p + d, c);
    Distributes(p, d, c);
  }

  lemma UpScales(n: int, d: int, c: int, p: int)
    requires c > 0 && p - d < n <= p
    ensures p * c - d * c < n * c <= p * c
  {
    Below(p - d, n, c);
    MulMonotone(n, p, c);
    Distributes(p, d, c);
  }

  lemma NearestScales(n: int, d: int, c: int, p: int)
    requires c > 0 && 2 * p <= 2 * n + d < 2 * p + 2 * d
    ensures 2 * (p * c) <= 2 * (n * c) + d * c < 2 * (p * c) + 2 * (d * c)
  {
    MulMonotone(2 * p, 2 * n + d, c);
    Below(2 * n + d, 2 * (p + d), c);
    Distributes(p, d, c);
    Distributes(n, d, c);
    Distributes(p + d, d, c);
    Distributes(2 * n, d, c);
  }

  lemma Below(a: int, b: int, c: int)
    requires a < b && c > 0
    ensures a * c < b * c
  {
  }

  function Offset(mode: Mode, d: nat): nat
    requires d > 0
  {
    match mode
    case Down => 0
    case Nearest => d / 2
    case Up => d - 1
  }

  /** Adding the offset before the division rounds. */
  lemma OffsetRounds(mode: Mode, n: nat, d: nat)
    requires d > 0
    ensures Rounded(mode, n, d, (n + Offset(mode, d)) / d)
  {
    var x := n + Offset(mode, d);
    var q := x / d;
    assert x == q * d + x % d;
    if mode == Nearest {
      Parity(n, d, q);
    }
  }

  /** For odd d no tie is possible, so the truncated half does no harm. */
  lemma Parity(n: nat, d: nat, q: nat)
    requires d > 0 && q * d <= n + d / 2 < q * d + d
    ensures Rounded(Nearest, n, d, q)
  {
    var h := d / 2;
    assert d == 2 * h || d == 2 * h + 1;
  }

  function Exact(mode: Mode, t: nat, from: nat, to: nat): (q: nat)
    requires from > 0
    ensures Rounded(mode, t * to, from, q)
  {
    OffsetRounds(mode, Product(t, to), from);
    Quotient(Product(t, to) + Offset(mode, from), from)
  }

  // ------------------------------------------------------------------
  // The code

  /** The frequencies a call may pass; a modulus by zero has no meaning. */
  predicate Callable(t: nat, from: nat, to: nat, constHz: bool) {
    t < W64 && 0 < from < W32 && to < W32 && (constHz ==> to > 0)
  }

  datatype Path = Same | Div(ratio: nat) | Mul(ratio: nat) | Full

  function PathOf(from: nat, to: nat, constHz: bool): (p: Path)
    requires from > 0 && (constHz ==> to > 0)
    ensures p.Same? <==> from == to
    ensures p.Div? ==> p.ratio >= 2 && from == p.ratio * to && to > 0
    ensures p.Mul? ==> p.ratio >= 2 && to == p.ratio * from
  {
    if from == to then Same
    else if constHz && from > to && from % to == 0 then RatioAtLeastTwo(from, to); Div(from / to)
    else if constHz && to > from && to % from == 0 then RatioAtLeastTwo(to, from); Mul(to / from)
    else Full
  }

  lemma RatioAtLeastTwo(a: nat, b: nat)
    requires a > b > 0 && a % b == 0
    ensures a == (a / b) * b && a / b >= 2
  {
    assert a == (a / b) * b + a % b;
  }

  /** The number that may overflow on each path. */
  function Intermediate(p: Path, t: nat, from: nat, to: nat, mode: Mode): nat
    requires from > 0 && (p.Div? ==> p.ratio > 0)
  {
    match p
    case Same => t
    case Div(k) => t + Offset(mode, k)
    case Mul(k) => Product(t, k)
    case Full => Product(t, to) + Offset(mode, from)
  }

  /** `off`: round_up is looked at before round_off. */
  function Off(roundUp: bool, roundOff: bool, d: nat): nat
    requires d > 0
  {
    if roundUp then d - 1 else if roundOff then d / 2 else 0
  }

  function Tmcvt(t: nat, from: nat, to: nat, constHz: bool, result32: bool, roundUp: bool, roundOff: bool): nat
    requires Callable(t, from, to, constHz)
  {
    match PathOf(from, to, constHz)
    case Same =>
      if result32 then Low32(t) else t
    case Div(k) =>
      var x := Low64(t + Off(roundUp, roundOff, k));
      if result32 then Quotient(Low32(x), k) else Quotient(x, k)
    case Mul(k) =>
      if result32 then Low32(Product(Low32(t), k)) else Low64(Product(t, k))
    case Full =>
      var x := Low64(Product(t, to) + Off(roundUp, roundOff, from));
      if result32 then Low32(Quotient(x, from)) else Quotient(x, from)
  }

  /** Calls with a rounding mode instead of the two flags; both flags mean Up. */
  function Convert(t: nat, from: nat, to: nat, constHz: bool, result32: bool, mode: Mode): nat
    requires Callable(t, from, to, constHz)
  {
    Tmcvt(t, from, to, constHz, result32, mode == Up, mode == Nearest)
  }

  lemma FlagsAreModes(t: nat, from: nat, to: nat, constHz: bool, result32: bool, roundUp: bool, roundOff: bool)
    requires Callable(t, from, to, constHz)
    ensures Tmcvt(t, from, to, constHz, result32, roundUp, roundOff)
         == Convert(t, from, to, constHz, result32, if roundUp then Up else if roundOff then Nearest else Down)
  {
  }

  // ------------------------------------------------------------------
  // When the code returns it

  /** No overflow in 64 bits. */
  predicate Fits(t: nat, from: nat, to: nat, constHz: bool, mode: Mode)
    requires Callable(t, from, to, constHz)
  {
    Intermediate(PathOf(from, to, constHz), t, from, to, mode) < W64
  }

  /** In terms of the frequencies: a whole ratio is used if it is known at compile time,
      and then the sum or product with the ratio must fit; otherwise the full product. */
  lemma FitsMeans(t: nat, from: nat, to: nat, constHz: bool, mode: Mode)
    requires Callable(t, from, to, constHz)
    ensures Fits(t, from, to, constHz, mode) <==>
            if from == to then true
            else if constHz && from % to == 0 then t + Offset(mode, from / to) < W64
            else if constHz && to % from == 0 then t * (to / from) < W64
            else t * to + Offset(mode, from) < W64
  {
    if constHz && from != to {
      SmallerRemainder(from, to);
      SmallerRemainder(to, from);
    }
  }

  lemma SmallerRemainder(a: nat, b: nat)
    requires 0 < a && 0 < b && a != b
    ensures a % b == 0 ==> a > b
  {
    if a < b {
      DivModUnique(a, b, 0, a);
    }
  }

  function Divisor(p: Path, from: nat): (d: nat)
    requires from > 0 && (p.Div? ==> p.ratio > 0)
    ensures d > 0
  {
    match p
    case Same => 1
    case Div(k) => k
    case Mul(k) => 1
    case Full => from
  }

  lemma EqualRates(mode: Mode, t: nat, hz: nat)
    requires hz > 0
    ensures Exact(mode, t, hz, hz) == t
  {
    assert Rounded(mode, t * hz, hz, t);
    RoundedUnique(mode, t * hz, hz, t, Exact(mode, t, hz, hz));
  }

  lemma DivPath(mode: Mode, t: nat, k: nat, to: nat)
    requires k > 0 && to > 0 && k * to > 0
    ensures (t + Offset(mode, k)) / k == Exact(mode, t, k * to, to)
  {
    OffsetRounds(mode, t, k);
    var q := (t + Offset(mode, k)) / k;
    RoundedScales(mode, t, k, to, q);
    RoundedUnique(mode, t * to, k * to, q, Exact(mode, t, k * to, to));
  }

  lemma MulPath(mode: Mode, t: nat, k: nat, from: nat)
    requires k > 0 && from > 0 && k * from >= 0
    ensures t * k == Exact(mode, t, from, k * from)
  {
    assert (t * k) * from == t * (k * from);
    assert Rounded(mode, t * (k * from), from, t * k);
    RoundedUnique(mode, t * (k * from), from, t * k, Exact(mode, t, from, k * from));
  }

  /** The three paths compute one number, whether or not the frequencies are known at
      compile time. */
  lemma PathsAgree(t: nat, from: nat, to: nat, constHz: bool, mode: Mode)
    requires from > 0 && (constHz ==> to > 0)
    ensures var p := PathOf(from, to, constHz);
            Intermediate(p, t, from, to, mode) / Divisor(p, from) == Exact(mode, t, from, to)
  {
    match PathOf(from, to, constHz)
    case Same => EqualRates(mode, t, from);
    case Div(k) => DivPath(mode, t, k, to);
    case Mul(k) => MulPath(mode, t, k, from);
    case Full =>
  }

  /** Dropping w from the dividend changes the quotient when k <= w. */
  lemma WrapChangesQuotient(x: nat, w: nat, k: nat)
    requires 0 < k <= w
    ensures (x % w) / k == x / k <==> x < w
  {
    if x < w {
      DivModUnique(x, w, 0, x);
    } else {
      var q, r := (x % w) / k, x / k;
      assert x % w <= x - w by {
        MulAtLeast(x / w, w);
      }
      assert Rounded(Down, x % w, k, q) && Rounded(Down, x, k, r);
    }
  }

  /** The 64-bit result is the exact one if and only if the intermediate fits. */
  lemma Exact64(t: nat, from: nat, to: nat, constHz: bool, mode: Mode)
    requires Callable(t, from, to, constHz)
    ensures Convert(t, from, to, constHz, false, mode) == Exact(mode, t, from, to)
            <==> Fits(t, from, to, constHz, mode)
  {
    var p := PathOf(from, to, constHz);
    var x, d := Intermediate(p, t, from, to, mode), Divisor(p, from);
    PathsAgree(t, from, to, constHz, mode);
    WrapsOnce(t, from, to, constHz, mode, x, d);
    DivisorFits(p, from, to);
    WrapChangesQuotient(x, W64, d);
  }

  /** On every path the code computes the intermediate in 64 bits and divides. */
  lemma WrapsOnce(t: nat, from: nat, to: nat, constHz: bool, mode: Mode, x: nat, d: nat)
    requires Callable(t, from, to, constHz) && d == Divisor(PathOf(from, to, constHz), from)
    requires x == Intermediate(PathOf(from, to, constHz), t, from, to, mode)
    ensures Convert(t, from, to, constHz, false, mode) == (x % W64) / d
  {
  }

  lemma DivisorFits(p: Path, from: nat, to: nat)
    requires 0 < from < W32 && (p.Div? ==> p.ratio > 0 && to > 0 && from == p.ratio * to)
    ensures Divisor(p, from) < W32
  {
    if p.Div? {
      RatioBelow(p.ratio, to, from);
    }
  }

  /** So the answer does not depend on what is known at compile time. */
  lemma ConstHzIrrelevant(t: nat, from: nat, to: nat, mode: Mode)
    requires Callable(t, from, to, true)
    requires Fits(t, from, to, true, mode) && Fits(t, from, to, false, mode)
    ensures Convert(t, from, to, true, false, mode) == Convert(t, from, to, false, false, mode)
  {
    Exact64(t, from, to, true, mode);
    Exact64(t, from, to, false, mode);
  }

  lemma ExactMonotone(mode: Mode, t: nat, u: nat, from: nat, to: nat)
    requires t <= u && from > 0
    ensures Exact(mode, t, from, to) <= Exact(mode, u, from, to)
  {
    ProductMonotone(t, u, to);
    RoundedMonotone(mode, t * to, u * to, from, Exact(mode, t, from, to), Exact(mode, u, from, to));
  }

  lemma ProductMonotone(t: nat, u: nat, to: nat)
    requires t <= u
    ensures t * to <= u * to
  {
    if to > 0 {
      MulMonotone(t, u, to);
    }
  }

  lemma Monotone(t: nat, u: nat, from: nat, to: nat, constHz: bool, mode: Mode)
    requires t <= u && Callable(u, from, to, constHz)
    requires Fits(t, from, to, constHz, mode) && Fits(u, from, to, constHz, mode)
    ensures Convert(t, from, to, constHz, false, mode) <= Convert(u, from, to, constHz, false, mode)
  {
    Exact64(t, from, to, constHz, mode);
    Exact64(u, from, to, constHz, mode);
    ExactMonotone(mode, t, u, from, to);
  }

  /** Rounding up one way and down the other way are adjoint. */
  lemma ExactGalois(t: nat, u: nat, from: nat, to: nat)
    requires from > 0 && to > 0
    ensures Exact(Up, t, from, to) <= u <==> t <= Exact(Down, u, to, from)
  {
    UpAtMost(t * to, from, Exact(Up, t, from, to), u);
    DownAtLeast(u * from, to, Exact(Down, u, to, from), t);
  }

  lemma UpAtMost(n: int, d: int, q: int, u: int)
    requires d > 0 && Rounded(Up, n, d, q)
    ensures q <= u <==> n <= u * d
  {
    if q <= u {
      MulMonotone(q, u, d);
    } else {
      MulMonotone(u, q - 1, d);
      assert (q - 1) * d == q * d - d;
    }
  }

  lemma DownAtLeast(n: int, d: int, q: int, t: int)
    requires d > 0 && Rounded(Down, n, d, q)
    ensures t <= q <==> t * d <= n
  {
    if t <= q {
      MulMonotone(t, q, d);
    } else {
      MulMonotone(q + 1, t, d);
      assert (q + 1) * d == q * d + d;
    }
  }

  /** The same of the code: a timeout converted upwards is never short. */
  lemma Galois(t: nat, u: nat, from: nat, to: nat, constHz: bool)
    requires Callable(t, from, to, constHz) && Callable(u, to, from, constHz)
    requires Fits(t, from, to, constHz, Up) && Fits(u, to, from, constHz, Down)
    ensures Convert(t, from, to, constHz, false, Up) <= u <==> t <= Convert(u, to, from, constHz, false, Down)
  {
    Exact64(t, from, to, constHz, Up);
    Exact64(u, to, from, constHz, Down);
    ExactGalois(t, u, from, to);
  }

  // ------------------------------------------------------------------
  // 32-bit results

  lemma ModOfProduct(t: nat, k: nat, w: nat)
    requires w > 0
    ensures ((t % w) * k) % w == (t * k) % w
  {
    var a, b := t / w, t % w;
    var q, r := (b * k) / w, (b * k) % w;
    assert t * k == (a * k + q) * w + r by {
      assert t == a * w + b;
      assert (a * w + b) * k == (a * k) * w + b * k;
      assert b * k == q * w + r;
    }
    DivModUnique(t * k, w, a * k + q, r);
  }

  /** Truncating before the division instead of after it. */
  lemma TruncateFirst(x: nat, k: nat, w: nat)
    requires 0 < k <= w
    ensures (x % w) / k == (x / k) % w <==> x % (k * w) < w
  {
    MulAtLeast(k, w);
    SplitByBlock(x, k, w);
    WrapChangesQuotient(x % (k * w), w, k);
  }

  lemma SplitByBlock(x: nat, k: nat, w: nat)
    requires 0 < k && 0 < w && 0 < k * w
    ensures (x / k) % w == (x % (k * w)) / k && x % w == (x % (k * w)) % w
  {
    var m := k * w;
    var a, y := x / m, x % m;
    assert x == a * m + y;
    assert a * m == (a * w) * k == (a * k) * w;
    QuotientInBlock(a, y, k, w);
    RemainderInBlock(a * k, y, w);
  }

  lemma QuotientInBlock(a: nat, y: nat, k: nat, w: nat)
    requires 0 < k && 0 < w && y < k * w
    ensures ((a * w) * k + y) / k % w == y / k
  {
    var p, x := y / k, (a * w) * k + y;
    assert y == p * k + y % k;
    assert x == (a * w + p) * k + y % k;
    DivModUnique(x, k, a * w + p, y % k);
    if p >= w {
      MulMonotone(w, p, k);
      assert false;
    }
    DivModUnique(x / k, w, a, p);
  }

  lemma RemainderInBlock(b: nat, y: nat, w: nat)
    requires 0 < w
    ensures (b * w + y) % w == y % w
  {
    var q := y / w;
    assert y == q * w + y % w;
    assert b * w + y == (b + q) * w + y % w;
    DivModUnique(b * w + y, w, b + q, y % w);
  }

  lemma LowOfLow(x: nat)
    ensures Low32(Low64(x)) == Low32(x)
  {
    SplitByBlock(x, W32, W32);
  }

  /** The 32-bit result of a division by an integer ratio is truncated too early: it is
      the exact one modulo 2^32 if and only if the dividend, modulo ratio * 2^32, is
      below 2^32. */
  lemma Exact32Div(t: nat, from: nat, to: nat, constHz: bool, mode: Mode)
    requires Callable(t, from, to, constHz) && PathOf(from, to, constHz).Div?
    ensures var k := PathOf(from, to, constHz).ratio;
            Convert(t, from, to, constHz, true, mode) == Low32(Exact(mode, t, from, to))
            <==> (t + Offset(mode, k)) % (k * W32) < W32
  {
    PathsAgree(t, from, to, constHz, mode);
    var k := PathOf(from, to, constHz).ratio;
    MulMonotone(1, to, k);
    TruncateFirst(t + Offset(mode, k), k, W32);
    LowOfLow(t + Offset(mode, k));
  }

  /** Every other 32-bit result is the exact one modulo 2^32: always for equal rates and
      for a multiplication, and without overflow for the general path. */
  lemma Exact32(t: nat, from: nat, to: nat, constHz: bool, mode: Mode)
    requires Callable(t, from, to, constHz) && !PathOf(from, to, constHz).Div?
    requires PathOf(from, to, constHz).Full? ==> Fits(t, from, to, constHz, mode)
    ensures Convert(t, from, to, constHz, true, mode) == Low32(Exact(mode, t, from, to))
  {
    PathsAgree(t, from, to, constHz, mode);
    match PathOf(from, to, constHz)
    case Same =>
    case Mul(k) => ModOfProduct(t, k, W32);
    case Full => DivModUnique(Product(t, to) + Offset(mode, from), W64, 0, Product(t, to) + Offset(mode, from));
  }

  /** Nothing overflows on the general path when t is a 32-bit number. */
  lemma WordFits(t: nat, from: nat, to: nat, mode: Mode)
    requires t < W32 && 0 < from < W32 && to < W32
    ensures Product(t, to) + Offset(mode, from) < W64
  {
    ProductMonotone(t, W32 - 1, to);
    MulMonotone(to, W32 - 1, W32 - 1);
    assert t * to <= (W32 - 1) * to;
  }

  /** What the 32-bit wrappers get, which all pass a 32-bit number: the exact result modulo
      2^32, except on the division path, where it is exact if and only if adding the
      rounding offset does not leave 32 bits. */
  lemma Exact32OfWord(t: nat, from: nat, to: nat, constHz: bool, mode: Mode)
    requires t < W32 && Callable(t, from, to, constHz)
    ensures Convert(t, from, to, constHz, true, mode) == Low32(Exact(mode, t, from, to))
            <==> (constHz && to < from && from % to == 0 ==> t + Offset(mode, from / to) < W32)
  {
    var p := PathOf(from, to, constHz);
    if p.Div? {
      Exact32Div(t, from, to, constHz, mode);
      RatioBelow(p.ratio, to, from);
      BelowTwoWords(t + Offset(mode, p.ratio), p.ratio);
    } else {
      WordFits(t, from, to, mode);
      Exact32(t, from, to, constHz, mode);
    }
  }

  lemma RatioBelow(k: nat, to: nat, from: nat)
    requires from == k * to && to > 0
    ensures k <= from
  {
    MulMonotone(1, to, k + 1);
  }

  lemma BelowTwoWords(x: nat, k: nat)
    requires 2 <= k && x < 2 * W32
    ensures x % (k * W32) < W32 <==> x < W32
  {
    MulMonotone(2, k, W32);
    DivModUnique(x, k * W32, 0, x);
  }

  /** The greatest 32-bit number of milliseconds, from 1000 Hz to 100 Hz rounded up: the
      32-bit result is 0, a timeout that is short, although the exact one fits. */
  lemma EarlyTruncationIsShort()
    ensures Exact(Up, W32 - 1, 1000, 100) == 429496730 < W32
    ensures Convert(W32 - 1, 1000, 100, true, true, Up) == 0
  {
  }
}

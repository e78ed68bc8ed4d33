/** The tables of powers of ten behind the number printer: 128-bit approximations of powers of ten,
    cut out of exact integers bit by bit. */
module Numprint {

  function Pow(b: nat, e: nat): nat {
    if e == 0 then 1 else b * Pow(b, e - 1)
  }

  function Pow2(e: nat): nat {
    Pow(2, e)
  }

  lemma {:induction false} PowPositive(b: nat, e: nat)
    requires b > 0
    ensures Pow(b, e) > 0
  {
    if e > 0 {
      PowPositive(b, e - 1);
      Positive(b, Pow(b, e - 1));
    }
  }

  lemma {:induction false} Positive(a: nat, b: nat)
    requires a > 0 && b > 0
    ensures a * b > 0
  {
  }

  lemma {:induction false} PowAdd(b: nat, x: nat, y: nat)
    ensures Pow(b, x + y) == Pow(b, x) * Pow(b, y)
  {
    if x > 0 {
      PowAdd(b, x - 1, y);
      Assoc(b, Pow(b, x - 1), Pow(b, y));
    }
  }

  lemma {:induction false} Assoc(a: nat, b: nat, c: nat)
    ensures a * (b * c) == (a * b) * c
  {
  }

  lemma {:induction false} Commute(a: nat, b: nat)
    ensures a * b == b * a
  {
  }

  lemma {:induction false} Swap(a: nat, b: nat, c: nat, d: nat)
    ensures (a * b) * (c * d) == (a * c) * (b * d)
  {
    Assoc(a, b, c * d);
    Assoc(b, c, d);
    Assoc(c, b, d);
    Assoc(a, c, b * d);
  }

  lemma {:induction false} PowTen(n: nat)
    ensures Pow(10, n) == Pow2(n) * Pow(5, n)
  {
    if n > 0 {
      PowTen(n - 1);
      Swap(2, 5, Pow2(n - 1), Pow(5, n - 1));
    }
  }

  lemma {:induction false} Scale(a: nat, b: nat, c: nat)
    requires a <= b
    ensures a * c <= b * c
    ensures a < b && c > 0 ==> a * c < b * c
  {
    assert (b - a) * c >= 0;
    if a < b && c > 0 {
      Positive(b - a, c);
    }
  }

  lemma {:induction false} Pow2Monotone(a: nat, b: nat)
    requires a <= b
    ensures Pow2(a) <= Pow2(b) && (a < b ==> Pow2(a) < Pow2(b))
  {
    PowPositive(2, a);
    if a < b {
      Pow2Monotone(a, b - 1);
      PowPositive(2, b - 1);
    }
  }

  // ----- division by powers of two -----

  lemma {:induction false} QuotientIs(a: nat, d: nat, q: nat)
    requires d > 0 && q * d <= a < q * d + d
    ensures a / d == q
  {
    var k, r := a / d, a % d;
    assert a == k * d + r;
    if k < q { Scale(k + 1, q, d); }
    if q < k { Scale(q + 1, k, d); }
  }

  lemma {:induction false} QuotientBounds(a: nat, d: nat)
    requires d > 0
    ensures (a / d) * d <= a < (a / d) * d + d
  {
    assert a == (a / d) * d + a % d;
  }

  lemma {:induction false} AddMultiple(a: nat, m: nat, d: nat)
    requires d > 0
    ensures (a + m * d) / d == a / d + m
  {
    QuotientBounds(a, d);
    assert (a / d + m) * d == (a / d) * d + m * d;
    QuotientIs(a + m * d, d, a / d + m);
  }

  /** One more bit of a number below a power of two. */
  lemma {:induction false} NextBit(n: nat, p: nat)
    requires p > 0
    ensures n % (2 * p) == n % p + (n / p % 2) * p
  {
    var q := n / p;
    var h, b := q / 2, q % 2;
    assert n == q * p + n % p;
    assert q * p == (2 * h + b) * p == h * (2 * p) + b * p;
    var low := n % p + b * p;
    assert low < 2 * p by { if b == 0 { assert b * p == 0; } else { assert b * p == p; } }
    QuotientIs(n, 2 * p, h);
    assert n == (n / (2 * p)) * (2 * p) + n % (2 * p);
  }

  // ----- high128 -----

  /** The least exponent whose power of two is not below `n`: the logarithm rounded up. */
  function CeilLog2(n: nat): (l: nat)
    requires n > 0
    ensures n <= Pow2(l) && (l > 0 ==> Pow2(l - 1) < n)
  {
    LeastExponent(n, 0)
  }

  function LeastExponent(n: nat, l: nat): (r: nat)
    requires n > 0 && (l > 0 ==> Pow2(l - 1) < n)
    ensures n <= Pow2(r) && (r > 0 ==> Pow2(r - 1) < n)
    decreases n - Pow2(l)
  {
    if n <= Pow2(l) then l
    else
      PowPositive(2, l);
      LeastExponent(n, l + 1)
  }

  predicate Bit(n: nat, i: nat) {
    PowPositive(2, i);
    n / Pow2(i) % 2 == 1
  }

  /** `r |= 1 << k`. */
  function SetBit(r: nat, k: nat): nat {
    if Bit(r, k) then r else r + Pow2(k)
  }

  lemma {:induction false} SetFreshBit(r: nat, k: nat)
    requires r < Pow2(k)
    ensures SetBit(r, k) == r + Pow2(k)
  {
    QuotientIs(r, Pow2(k), 0);
  }

  /** The low `i` bits of `n`, moved so that bit `l` becomes bit `w`. */
  function Window(n: nat, i: nat, l: nat, w: nat): nat {
    PowPositive(2, i);
    if l >= w then
      PowPositive(2, l - w);
      n % Pow2(i) / Pow2(l - w)
    else n % Pow2(i) * Pow2(w - l)
  }

  lemma {:induction false} FloorStep(low: nat, p: nat, q: nat, d: nat)
    requires d > 0 && p == q * d && low < p
    ensures low / d < q && (low + p) / d == low / d + q
  {
    QuotientBounds(low, d);
    if low / d >= q { Scale(q, low / d, d); }
    AddMultiple(low, q, d);
  }

  lemma {:induction false} ProductStep(low: nat, p: nat, f: nat)
    requires f > 0 && low < p
    ensures low * f < p * f && (low + p) * f == low * f + p * f
  {
    Scale(low, p, f);
  }

  /** Taking one more bit into the window sets the bit it is moved to. */
  lemma {:induction false} WindowStep(n: nat, i: nat, l: nat, w: nat)
    requires i < l && l - w <= i
    ensures Window(n, i, l, w) < Pow2(i - l + w)
    ensures Window(n, i + 1, l, w) == if Bit(n, i) then SetBit(Window(n, i, l, w), i - l + w) else Window(n, i, l, w)
  {
    var p, k := Pow2(i), i - l + w;
    PowPositive(2, i);
    NextBit(n, p);
    assert Pow2(i + 1) == 2 * p;
    var low := n % p;
    assert Bit(n, i) ==> (n / p % 2) * p == p;
    assert !Bit(n, i) ==> (n / p % 2) * p == 0;
    if l >= w {
      PowPositive(2, l - w);
      PowAdd(2, k, l - w);
      FloorStep(low, p, Pow2(k), Pow2(l - w));
    } else {
      PowPositive(2, w - l);
      PowAdd(2, i, w - l);
      ProductStep(low, p, Pow2(w - l));
    }
    SetFreshBit(Window(n, i, l, w), k);
  }

  lemma {:induction false} WindowEmpty(n: nat, l: nat, w: nat)
    ensures Window(n, if l >= w then l - w else 0, l, w) == 0
  {
    if l >= w {
      var d := Pow2(l - w);
      PowPositive(2, l - w);
      QuotientIs(n % d, d, 0);
    } else {
      assert n % 1 == 0;
      assert 0 * Pow2(w - l) == 0;
    }
  }

  /** The loop of `high128` for any number of bits: those from `w` below the logarithm up to it. */
  method HighBits(n: nat, w: nat) returns (r: nat)
    requires n > 0
    ensures r == Window(n, CeilLog2(n), CeilLog2(n), w)
  {
    var l: int := CeilLog2(n);
    r := 0;
    var i: int := l - w;
    WindowEmpty(n, l, w);
    while i < l
      invariant l - w <= i <= l
      invariant r == if i < 0 then 0 else Window(n, i, l, w)
    {
      if i >= 0 {
        WindowStep(n, i, l, w);
        if Bit(n, i) {
          r := SetBit(r, i - l + w);
        }
      }
      i := i + 1;
    }
  }

  ghost predicate PowerOfTwo(n: nat) {
    exists k: nat :: n == Pow2(k)
  }

  /** `g` times two to the power `l - w` is `n` rounded down to `w` significant bits. */
  ghost predicate TopBits(g: nat, n: nat, l: nat, w: nat) {
    if l >= w then g * Pow2(l - w) <= n < (g + 1) * Pow2(l - w) else g == n * Pow2(w - l)
  }

  /** The bit loop yields the top bits exactly when the number is not a power of two: for those the
      rounded-up logarithm is one less than the bit length, and the only set bit is missed. */
  lemma {:induction false} WindowIsTopBits(n: nat, w: nat)
    requires n > 0 && w > 0
    ensures var l := CeilLog2(n);
            if PowerOfTwo(n) then n == Pow2(l) && Window(n, l, l, w) == 0 && !TopBits(0, n, l, w)
            else l > 0 && Pow2(l - 1) <= n < Pow2(l) && TopBits(Window(n, l, l, w), n, l, w)
                 && Pow2(w - 1) <= Window(n, l, l, w) < Pow2(w)
  {
    var l := CeilLog2(n);
    if PowerOfTwo(n) {
      var k :| n == Pow2(k);
      if k < l { Pow2Monotone(k, l - 1); }
      if l < k { Pow2Monotone(l, k); }
      MissedBit(l, w);
    } else {
      assert n != Pow2(l) && n != Pow2(0);
      TopBitsRange(n, l, w);
    }
  }

  lemma {:induction false} MissedBit(l: nat, w: nat)
    requires w > 0
    ensures Window(Pow2(l), l, l, w) == 0 && !TopBits(0, Pow2(l), l, w)
  {
    var n := Pow2(l);
    PowPositive(2, l);
    assert n % n == 0;
    if l >= w {
      PowPositive(2, l - w);
      QuotientIs(0, Pow2(l - w), 0);
      Pow2Monotone(l - w, l);
    } else {
      PowPositive(2, w - l);
      Positive(n, Pow2(w - l));
      assert 0 * Pow2(w - l) == 0;
    }
  }

  lemma {:induction false} FloorRange(n: nat, d: nat, lo: nat, hi: nat)
    requires d > 0 && lo * d <= n < hi * d
    ensures lo <= n / d < hi && (n / d) * d <= n < (n / d + 1) * d
  {
    var q := n / d;
    QuotientBounds(n, d);
    assert (q + 1) * d == q * d + d;
    if q < lo { Scale(q + 1, lo, d); }
    if q >= hi { Scale(hi, q, d); }
  }

  lemma {:induction false} TopBitsRange(n: nat, l: nat, w: nat)
    requires l > 0 && w > 0 && Pow2(l - 1) <= n < Pow2(l)
    ensures TopBits(Window(n, l, l, w), n, l, w) && Pow2(w - 1) <= Window(n, l, l, w) < Pow2(w)
  {
    assert n % Pow2(l) == n;
    if l >= w {
      PowPositive(2, l - w);
      PowAdd(2, w - 1, l - w);
      PowAdd(2, w, l - w);
      FloorRange(n, Pow2(l - w), Pow2(w - 1), Pow2(w));
    } else {
      PowPositive(2, w - l);
      PowAdd(2, l - 1, w - l);
      PowAdd(2, l, w - l);
      Scale(Pow2(l - 1), n, Pow2(w - l));
      Scale(n, Pow2(l), Pow2(w - l));
    }
  }

  // ----- powers of ten -----

  /** No positive power of ten is a power of two. */
  lemma {:induction false} TenIsNoPowerOfTwo(n: nat)
    requires n > 0
    ensures !PowerOfTwo(Pow(10, n))
  {
    var rest := Pow(10, n - 1);
    assert Pow(10, n) == 10 * rest == 5 * (2 * rest);
    assert 5 * (2 * rest) % 5 == 0;
    if PowerOfTwo(Pow(10, n)) {
      var k :| Pow(10, n) == Pow2(k);
      NotDivisible(k);
    }
  }

  lemma {:induction false} NotDivisible(k: nat)
    ensures Pow2(k) % 5 != 0
  {
    if k > 0 {
      NotDivisible(k - 1);
    }
  }

  /** `x` lies below `g` units of two to the power `l - w`, by at most one unit. */
  ghost predicate Brackets(g: nat, x: nat, l: nat, w: nat) {
    g > 0 && l >= w && (g - 1) * Pow2(l - w) <= x < g * Pow2(l - w)
  }

  ghost predicate Exact(g: nat, x: nat, l: nat, w: nat) {
    if l >= w then g * Pow2(l - w) == x else g == x * Pow2(w - l)
  }

  /** Powers of ten whose odd part fits lose no bits. */
  lemma {:induction false} SmallPowersAreExact(n: nat, l: nat, w: nat, g: nat)
    requires Pow(5, n) < Pow2(w) && l > 0 && Pow2(l - 1) <= Pow(10, n) < Pow2(l) && TopBits(g, Pow(10, n), l, w)
    ensures Exact(g, Pow(10, n), l, w)
  {
    if l >= w {
      ShiftIsSmall(n, l, w);
      var d, up := Pow2(l - w), n - (l - w);
      PowTen(n);
      PowAdd(2, up, l - w);
      PowPositive(2, l - w);
      Regroup(Pow2(up), d, Pow(5, n));
      SameQuotient(g, Pow2(up) * Pow(5, n), d);
    }
  }

  lemma {:induction false} ShiftIsSmall(n: nat, l: nat, w: nat)
    requires Pow(5, n) < Pow2(w) && l > 0 && Pow2(l - 1) <= Pow(10, n)
    ensures l - w <= n
  {
    PowTen(n);
    PowPositive(2, n);
    Commute(Pow2(n), Pow(5, n));
    Scale(Pow(5, n), Pow2(w), Pow2(n));
    PowAdd(2, w, n);
    if l - 1 >= w + n { Pow2Monotone(w + n, l - 1); }
  }

  lemma {:induction false} SameQuotient(g: nat, m: nat, d: nat)
    requires d > 0 && g * d <= m * d < (g + 1) * d
    ensures g == m
  {
    if m < g { Scale(m, g, d); }
    if g < m { Scale(g + 1, m, d); }
  }

  lemma {:induction false} Regroup(a: nat, d: nat, c: nat)
    ensures (a * d) * c == (a * c) * d
  {
    Assoc(a, d, c);
    Assoc(a, c, d);
  }

  lemma {:induction false} LargePowersAreLong(n: nat, l: nat, w: nat)
    requires Pow(5, n) >= Pow2(w) && Pow(10, n) < Pow2(l)
    ensures l >= w
  {
    PowTen(n);
    PowPositive(2, n);
    Scale(1, Pow2(n), Pow(5, n));
    if l < w { Pow2Monotone(l, w); }
  }

  /** `pow10approx` for positive exponents, for any number of bits. */
  method PositivePower(n: nat, w: nat) returns (g: nat)
    requires n > 0 && w > 0
    ensures var x := Pow(10, n); x > 0 && var l := CeilLog2(x);
            && l > 0 && Pow2(l - 1) <= x < Pow2(l)
            && (if Pow(5, n) < Pow2(w) then Exact(g, x, l, w) else Brackets(g, x, l, w))
            && Pow2(w - 1) <= g <= Pow2(w)
  {
    var x := Pow(10, n);
    PowPositive(10, n);
    TenIsNoPowerOfTwo(n);
    WindowIsTopBits(x, w);
    var r := HighBits(x, w);
    ghost var l := CeilLog2(x);
    if Pow(5, n) >= Pow2(w) {
      LargePowersAreLong(n, l, w);
      g := r + 1;
    } else {
      SmallPowersAreExact(n, l, w, r);
      g := r;
    }
  }

  /** The integer a negative power of ten is cut out of. */
  function Reciprocal(m: nat, w: nat): nat {
    PowPositive(10, m);
    Pow2(w) * Pow(16, m) / Pow(10, m)
  }

  lemma {:induction false} ReciprocalIsLarge(m: nat, w: nat)
    ensures Pow2(w) <= Reciprocal(m, w)
  {
    PowPositive(10, m);
    PowLe(m);
    LargeQuotient(Pow2(w), Pow(16, m), Pow(10, m));
  }

  lemma {:induction false} LargeQuotient(p: nat, a: nat, d: nat)
    requires 0 < d <= a
    ensures p <= p * a / d
  {
    var q := p * a / d;
    QuotientBounds(p * a, d);
    Scale(d, a, p);
    Commute(d, p);
    Commute(a, p);
    if q < p { Scale(q + 1, p, d); }
  }

  lemma {:induction false} PowLe(m: nat)
    ensures Pow(10, m) <= Pow(16, m)
  {
    if m > 0 {
      PowLe(m - 1);
    }
  }

  /** `pow10approx` for negative exponents: the reciprocal lies in the last unit below the result,
      exactly when the integer it is cut out of is not a power of two; otherwise the result is 1. */
  method NegativePower(m: nat, w: nat) returns (g: nat)
    requires m > 0 && w > 0
    ensures var q := Reciprocal(m, w); q > 0 && var l := CeilLog2(q);
            if PowerOfTwo(q) then g == 1 && !Brackets(g, q, l, w)
            else Brackets(g, q, l, w) && Pow2(w - 1) < g <= Pow2(w) && BracketsReciprocal(g, m, l, w)
  {
    var q := Reciprocal(m, w);
    ReciprocalIsLarge(m, w);
    PowPositive(2, w);
    WindowIsTopBits(q, w);
    var r := HighBits(q, w);
    g := r + 1;
    ghost var l := CeilLog2(q);
    if l < w { Pow2Monotone(l, w); }
    if !PowerOfTwo(q) {
      CarryOver(g, m, l, w);
    }
  }

  /** Scaled by a power of two, the reciprocal of `10^m` lies between `g - 1` and `g` units. */
  ghost predicate BracketsReciprocal(g: nat, m: nat, l: nat, w: nat) {
    g > 0 && l >= w && (g - 1) * Pow2(l - w) * Pow(10, m) <= Pow2(w) * Pow(16, m) < g * Pow2(l - w) * Pow(10, m)
  }

  lemma {:induction false} CarryOver(g: nat, m: nat, l: nat, w: nat)
    requires Brackets(g, Reciprocal(m, w), l, w)
    ensures BracketsReciprocal(g, m, l, w)
  {
    PowPositive(10, m);
    QuotientBetween(Pow2(w) * Pow(16, m), Pow(10, m), (g - 1) * Pow2(l - w), g * Pow2(l - w));
  }

  lemma {:induction false} QuotientBetween(a: nat, d: nat, lo: nat, hi: nat)
    requires d > 0 && lo <= a / d < hi
    ensures lo * d <= a < hi * d
  {
    var q := a / d;
    QuotientBounds(a, d);
    Scale(lo, q, d);
    Scale(q + 1, hi, d);
    assert (q + 1) * d == q * d + d;
  }

  /** A reciprocal that is cut out as a power of two has a power of two just above the power of five. */
  lemma {:induction false} NearPower(m: nat, w: nat, k: nat) returns (t: nat)
    requires m > 0 && Reciprocal(m, w) == Pow2(k)
    ensures Pow(5, m) < Pow2(t) && Pow2(t) * Pow2(k) < Pow(5, m) * (Pow2(k) + 1)
  {
    var a, d, f, e := Pow2(w) * Pow(16, m), Pow(10, m), Pow(5, m), w + 4 * m;
    PowPositive(10, m);
    PowPositive(5, m);
    QuotientBounds(a, d);
    PowTen(m);
    assert a == Pow2(e) by {
      PowSixteen(m);
      PowAdd(2, w, 4 * m);
    }
    assert Pow2(k) * d == Pow2(k + m) * f by {
      PowAdd(2, k, m);
      Assoc(Pow2(k), Pow2(m), f);
    }
    if k + m > e {
      t := 0;
      Commute(f, Pow2(k + m));
      Scale(1, f, Pow2(k + m));
      Pow2Monotone(e, k + m);
    } else {
      t := e - k - m;
      PowAdd(2, k + m, t);
      NotAPower(m, t);
      PowAdd(2, k, m);
      PowPositive(2, k);
      PowPositive(2, m);
      NearFactors(Pow2(k), Pow2(m), f, Pow2(t));
    }
  }

  lemma {:induction false} NearFactors(p: nat, u: nat, f: nat, t: nat)
    requires p > 0 && u > 0 && f != t
    requires (p * u) * f <= (p * u) * t < (p * u) * f + u * f
    ensures f < t && t * p < f * (p + 1)
  {
    var pu := p * u;
    Positive(p, u);
    Commute(t, pu);
    Commute(f, pu);
    assert f < t by {
      if t < f { Scale(t, f, pu); }
    }
    assert (t * p) * u < (f * (p + 1)) * u by {
      Assoc(t, p, u);
      Assoc(f, p, u);
      Commute(f, u);
      assert f * (p + 1) == f * p + f;
      assert (f * p + f) * u == (f * p) * u + f * u;
    }
    Cancel(t * p, f * (p + 1), u);
  }

  lemma {:induction false} Cancel(a: nat, b: nat, c: nat)
    requires a * c < b * c
    ensures a < b
  {
    if b <= a { Scale(b, a, c); }
  }

  /** So it is small. */
  lemma {:induction false} PowerOfTwoIsSmall(m: nat, w: nat)
    requires m > 0 && PowerOfTwo(Reciprocal(m, w))
    ensures Reciprocal(m, w) < Pow(5, m)
  {
    var k: nat :| Reciprocal(m, w) == Pow2(k);
    var t := NearPower(m, w, k);
    NearIsSmall(Pow(5, m), Pow2(t), Pow2(k));
  }

  lemma {:induction false} NearIsSmall(f: nat, t: nat, p: nat)
    requires f < t && t * p < f * (p + 1)
    ensures p < f
  {
    Scale(f + 1, t, p);
    assert (f + 1) * p == f * p + p;
    assert f * (p + 1) == f * p + f;
  }

  lemma {:induction false} PowSixteen(m: nat)
    ensures Pow(16, m) == Pow2(4 * m)
  {
    if m > 0 {
      PowSixteen(m - 1);
      PowAdd(2, 4, 4 * (m - 1));
      assert Pow(2, 1) == 2 && Pow(2, 2) == 4 && Pow(2, 3) == 8 && Pow(2, 4) == 16;
    }
  }

  lemma {:induction false} NotAPower(m: nat, k: nat)
    requires m > 0
    ensures Pow(5, m) != Pow2(k)
  {
    NotDivisible(k);
    assert Pow(5, m) == 5 * Pow(5, m - 1);
  }

  /** The exception does not arise while `50^m` is at most `2^w` times `16^m`. */
  lemma {:induction false} NoExceptionWhileLarge(m: nat, w: nat)
    requires m > 0 && Pow(50, m) <= Pow2(w) * Pow(16, m)
    ensures !PowerOfTwo(Reciprocal(m, w))
  {
    if PowerOfTwo(Reciprocal(m, w)) {
      PowerOfTwoIsSmall(m, w);
      var q, a, d := Reciprocal(m, w), Pow2(w) * Pow(16, m), Pow(10, m);
      PowPositive(10, m);
      QuotientBounds(a, d);
      PowFifty(m);
      assert (q + 1) * d == q * d + d;
      Scale(q + 1, Pow(5, m), d);
    }
  }

  lemma {:induction false} PowFifty(m: nat)
    ensures Pow(50, m) == Pow(5, m) * Pow(10, m)
  {
    if m > 0 {
      PowFifty(m - 1);
      Swap(5, Pow(5, m - 1), 10, Pow(10, m - 1));
    }
  }

  // ----- powers of five are not that close to powers of two -----

  lemma {:induction false} PowMono(a: nat, b: nat, n: nat)
    requires a <= b
    ensures Pow(a, n) <= Pow(b, n)
    ensures a < b && n > 0 ==> Pow(a, n) < Pow(b, n)
  {
    if n > 0 {
      PowMono(a, b, n - 1);
      var x, y := Pow(a, n - 1), Pow(b, n - 1);
      Scale(a, b, x);
      Scale(x, y, b);
      Commute(x, b);
      Commute(y, b);
      if a < b {
        PowPositive(b, n - 1);
        Scale(a, b, y);
        Scale(x, y, a);
        Commute(x, a);
        Commute(y, a);
      }
    }
  }

  lemma {:induction false} PowTimes(a: nat, b: nat, n: nat)
    ensures Pow(a * b, n) == Pow(a, n) * Pow(b, n)
  {
    if n > 0 {
      PowTimes(a, b, n - 1);
      Swap(a, b, Pow(a, n - 1), Pow(b, n - 1));
    }
  }

  lemma {:induction false} PowPow(a: nat, m: nat, n: nat)
    ensures m * n >= 0 && Pow(Pow(a, m), n) == Pow(a, m * n)
  {
    if n > 0 {
      PowPow(a, m, n - 1);
      assert m * n == m + m * (n - 1);
      PowAdd(a, m, m * (n - 1));
    }
  }

  /** Bernoulli's inequality, as a bound on powers of a number just above another. */
  lemma {:induction false} Bernoulli(a: nat, n: nat)
    requires n <= a + 1
    ensures Pow(a + 1, n) * (a + 1 - n) <= Pow(a, n) * (a + 1)
  {
    if n > 0 {
      Bernoulli(a, n - 1);
      var x, y := Pow(a + 1, n - 1), Pow(a, n - 1);
      assert (a + 1) * (a + 1 - n) <= a * (a + 2 - n) by {
        assert (a + 1) * (a + 1 - n) == a * (a + 1 - n) + (a + 1 - n);
        assert a * (a + 2 - n) == a * (a + 1 - n) + a;
      }
      BernoulliStep(a, a + 1 - n, a + 2 - n, x, y);
    }
  }

  lemma {:induction false} BernoulliStep(a: nat, l: nat, l': nat, x: nat, y: nat)
    requires (a + 1) * l <= a * l' && x * l' <= y * (a + 1)
    ensures ((a + 1) * x) * l <= (a * y) * (a + 1)
  {
    Regroup(a + 1, x, l);
    Scale((a + 1) * l, a * l', x);
    assert (a * l') * x == (x * l') * a by {
      Regroup(a, l', x);
      Commute(a, x);
      Regroup(x, l', a);
    }
    Scale(x * l', y * (a + 1), a);
    assert (y * (a + 1)) * a == (a * y) * (a + 1) by {
      Regroup(y, a + 1, a);
      Commute(y, a);
    }
  }

  /** `5^146` is above `2^339`, by less than a thousandth or so: the logarithm of five is close to 339/146. */
  lemma {:induction false} Convergent()
    ensures Pow2(339) < Pow(5, 146) && 960 * Pow(5, 146) <= 961 * Pow2(339)
  {
    FiveAt146();
    TwoAt339();
  }

  lemma {:induction false} FiveAt146()
    ensures Pow(5, 146) == 1121038771459853656738983666631932905024209553501212617405654627111832866148688481189310550689697265625
  {
    assert Pow(5, 0) == 1 && Pow(5, 1) == 5;
    PowAdd(5, 1, 1);
    assert Pow(5, 2) == 25;
    PowAdd(5, 2, 2);
    assert Pow(5, 4) == 625;
    PowAdd(5, 4, 4);
    assert Pow(5, 8) == 390625;
    PowAdd(5, 8, 8);
    assert Pow(5, 16) == 152587890625;
    PowAdd(5, 16, 16);
    assert Pow(5, 32) == 23283064365386962890625;
    PowAdd(5, 32, 32);
    assert Pow(5, 64) == 542101086242752217003726400434970855712890625;
    PowAdd(5, 64, 64);
    assert Pow(5, 128) == 293873587705571876992184134305561419454666389193021880377187926569604314863681793212890625;
    PowAdd(5, 128, 16);
    assert Pow(5, 144) == 44841550858394146269559346665277316200968382140048504696226185084473314645947539247572422027587890625;
    PowAdd(5, 144, 2);
    assert Pow(5, 146) == 1121038771459853656738983666631932905024209553501212617405654627111832866148688481189310550689697265625;
  }

  lemma {:induction false} TwoAt339()
    ensures Pow(2, 339) == 1119872371088902105278721140284222139060822748617324767449994550481895935590080472690438746635803557888
  {
    assert Pow(2, 0) == 1 && Pow(2, 1) == 2;
    PowAdd(2, 1, 1);
    assert Pow(2, 2) == 4;
    PowAdd(2, 2, 2);
    assert Pow(2, 4) == 16;
    PowAdd(2, 4, 4);
    assert Pow(2, 8) == 256;
    PowAdd(2, 8, 8);
    assert Pow(2, 16) == 65536;
    PowAdd(2, 16, 16);
    assert Pow(2, 32) == 4294967296;
    PowAdd(2, 32, 32);
    assert Pow(2, 64) == 18446744073709551616;
    PowAdd(2, 64, 64);
    assert Pow(2, 128) == 340282366920938463463374607431768211456;
    PowAdd(2, 128, 128);
    assert Pow(2, 256) == 115792089237316195423570985008687907853269984665640564039457584007913129639936;
    PowAdd(2, 256, 64);
    assert Pow(2, 320) == 2135987035920910082395021706169552114602704522356652769947041607822219725780640550022962086936576;
    PowAdd(2, 320, 16);
    assert Pow(2, 336) == 139984046386112763159840142535527767382602843577165595931249318810236991948760059086304843329475444736;
    PowAdd(2, 336, 2);
    assert Pow(2, 338) == 559936185544451052639360570142111069530411374308662383724997275240947967795040236345219373317901778944;
    PowAdd(2, 338, 1);
    assert Pow(2, 339) == 1119872371088902105278721140284222139060822748617324767449994550481895935590080472690438746635803557888;
  }

  /** A power of two above `5^m` is, to the 146th power, at least twice `2^(339 m)`. */
  lemma {:induction false} AtLeastTwice(m: nat, t: nat)
    requires m > 0 && Pow(5, m) < Pow2(t)
    ensures 2 * Pow(Pow2(339), m) <= Pow(Pow2(t), 146)
    ensures Pow(Pow(5, m), 146) == Pow(Pow(5, 146), m)
  {
    Convergent();
    PowPow(5, m, 146);
    PowPow(5, 146, m);
    PowPow(2, 339, m);
    PowPow(2, t, 146);
    PowMono(Pow2(339), Pow(5, 146), m);
    PowMono(Pow(5, m), Pow2(t), 146);
    assert Pow2(339 * m) < Pow2(t * 146);
    if t * 146 <= 339 * m {
      Pow2Monotone(t * 146, 339 * m);
    } else {
      Pow2Monotone(339 * m + 1, t * 146);
    }
  }

  /** The powers above, without what they are powers of. */
  lemma {:induction false} Squeeze(low: nat, high: nat, fives: nat, twos: nat, above: nat, k: nat, k': nat, x: nat, h: nat, top: nat)
    requires low > 0 && twos > 0 && k > 0 && x > 0 && h > 0
    requires 2 * twos <= above && above * k < fives * k' && low * fives <= high * twos
    requires high * x <= low * 961 && k' * h <= k * top
    ensures 2 * (x * h) < 961 * top
  {
    assert 2 * (low * k) < high * k' by { SqueezePowers(low, high, fives, twos, above, k, k'); }
    Positive(x, h);
    Scale(2 * (low * k), high * k', x * h);
    assert (high * k') * (x * h) <= (low * k) * (961 * top) by {
      Swap(high, k', x, h);
      Swap(low, k, 961, top);
      Scale(high * x, low * 961, k' * h);
      Scale(k' * h, k * top, low * 961);
      Commute(k' * h, low * 961);
      Commute(k * top, low * 961);
    }
    assert (2 * (low * k)) * (x * h) == (2 * (x * h)) * (low * k) by { Regroup(2, low * k, x * h); }
    Commute(low * k, 961 * top);
    Cancel(2 * (x * h), 961 * top, low * k);
  }

  lemma {:induction false} SqueezePowers(low: nat, high: nat, fives: nat, twos: nat, above: nat, k: nat, k': nat)
    requires low > 0 && twos > 0 && 2 * twos <= above && above * k < fives * k' && low * fives <= high * twos
    ensures 2 * (low * k) < high * k'
  {
    Scale(2 * twos, above, k);
    Scale((2 * twos) * k, fives * k', low);
    assert (fives * k') * low == (low * fives) * k' by {
      Regroup(fives, k', low);
      Commute(fives, low);
    }
    Scale(low * fives, high * twos, k');
    Regroup(high, twos, k');
    assert ((2 * twos) * k) * low == (2 * (low * k)) * twos by {
      Regroup(2 * twos, k, low);
      Regroup(2, twos, low * k);
      Assoc(2 * twos, low, k);
    }
    Cancel(2 * (low * k), high * k', twos);
  }

  /** Up to `m == 470` the exception does not arise with 13 bits or more. */
  lemma {:induction false} NoExceptionUpTo470(m: nat, w: nat)
    requires 0 < m <= 470 && w >= 13
    ensures !PowerOfTwo(Reciprocal(m, w))
  {
    if PowerOfTwo(Reciprocal(m, w)) {
      var k: nat :| Reciprocal(m, w) == Pow2(k);
      var t := NearPower(m, w, k);
      assert Pow2(k) >= 8192 by {
        ReciprocalIsLarge(m, w);
        Pow2Monotone(13, w);
        TwoAt13();
      }
      NotThatNear(m, k, t);
    }
  }

  lemma {:induction false} TwoAt13()
    ensures Pow2(13) == 8192
  {
    assert Pow(2, 0) == 1 && Pow(2, 1) == 2;
    PowAdd(2, 1, 1);
    assert Pow(2, 2) == 4;
    PowAdd(2, 2, 2);
    assert Pow(2, 4) == 16;
    PowAdd(2, 4, 4);
    assert Pow(2, 8) == 256;
    PowAdd(2, 8, 4);
    assert Pow(2, 12) == 4096;
    PowAdd(2, 12, 1);
    assert Pow(2, 13) == 8192;
  }

  lemma {:induction false} NotThatNear(m: nat, k: nat, t: nat)
    requires 0 < m <= 470 && Pow2(k) >= 8192 && Pow(5, m) < Pow2(t)
    ensures Pow2(t) * Pow2(k) >= Pow(5, m) * (Pow2(k) + 1)
  {
    var p := Pow2(k);
    if Pow2(t) * p < Pow(5, m) * (p + 1) {
      var fives, twos := Pow(Pow(5, 146), m), Pow(Pow2(339), m);
      PowersBelow(m, k, t, fives, twos);
      PowPositive(960, m);
      PowPositive(2, 339);
      PowPositive(Pow2(339), m);
      PowPositive(p, 146);
      Squeeze(Pow(960, m), Pow(961, m), fives, twos, Pow(Pow2(t), 146), Pow(p, 146), Pow(p + 1, 146), 961 - m, p - 145, p + 1);
      TooLarge(961 - m, p);
    }
  }

  lemma {:induction false} TooLarge(x: nat, p: nat)
    requires x >= 491 && p >= 8192
    ensures 2 * (x * (p - 145)) >= 961 * (p + 1)
  {
    Scale(491, x, p - 145);
  }

  /** What is known of the powers when `5^m` has a power of two just above it. */
  lemma {:induction false} PowersBelow(m: nat, k: nat, t: nat, fives: nat, twos: nat)
    requires 0 < m <= 470 && Pow2(k) >= 8192 && Pow(5, m) < Pow2(t) && Pow2(t) * Pow2(k) < Pow(5, m) * (Pow2(k) + 1)
    requires fives == Pow(Pow(5, 146), m) && twos == Pow(Pow2(339), m)
    ensures 2 * twos <= Pow(Pow2(t), 146)
    ensures Pow(Pow2(t), 146) * Pow(Pow2(k), 146) < fives * Pow(Pow2(k) + 1, 146)
    ensures Pow(960, m) * fives <= Pow(961, m) * twos
    ensures Pow(961, m) * (961 - m) <= Pow(960, m) * 961
    ensures Pow(Pow2(k) + 1, 146) * (Pow2(k) - 145) <= Pow(Pow2(k), 146) * (Pow2(k) + 1)
  {
    AtLeastTwice(m, t);
    assert Pow(Pow2(t), 146) * Pow(Pow2(k), 146) < fives * Pow(Pow2(k) + 1, 146) by {
      PowTimes(Pow2(t), Pow2(k), 146);
      PowTimes(Pow(5, m), Pow2(k) + 1, 146);
      PowMono(Pow2(t) * Pow2(k), Pow(5, m) * (Pow2(k) + 1), 146);
    }
    assert Pow(960, m) * fives <= Pow(961, m) * twos by {
      Convergent();
      PowTimes(960, Pow(5, 146), m);
      PowTimes(961, Pow2(339), m);
      PowMono(960 * Pow(5, 146), 961 * Pow2(339), m);
    }
    Bernoulli(960, m);
    Bernoulli(Pow2(k), 146);
  }

  /** `pow10approx`, with its 128 bits. */
  method Pow10Approx(n: int) returns (g: nat)
    ensures n == 0 ==> g == Pow2(127)
    ensures n > 0 ==>
              var x := Pow(10, n); x > 0 && var l := CeilLog2(x);
              && l > 0 && Pow2(l - 1) <= x < Pow2(l)
              && (if Pow(5, n) < Pow2(128) then Exact(g, x, l, 128) else Brackets(g, x, l, 128))
              && Pow2(127) <= g <= Pow2(128)
    ensures n < 0 ==>
              var q := Reciprocal(-n, 128); q > 0 && var l := CeilLog2(q);
              if PowerOfTwo(q) then n < -470 && g == 1
              else BracketsReciprocal(g, -n, l, 128) && Pow2(127) < g <= Pow2(128)
  {
    if n == 0 {
      g := Pow2(127);
    } else if n > 0 {
      g := PositivePower(n, 128);
    } else {
      g := NegativePower(-n, 128);
      if n >= -470 {
        NoExceptionUpTo470(-n, 128);
      }
    }
  }
}

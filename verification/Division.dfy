/** 64-bit division by shifting and subtracting (crates/system/externs.rs, lines 85-182).

    The divisor is doubled until it reaches the dividend, wrapping at 64 bits, and then halved again
    step by step.  Taking out the multiples of 2^32 first keeps the number of doublings small. */
module Division {

  const HALF := 0x1_0000_0000
  const LIMIT := 0x1_0000_0000_0000_0000

  type U64 = n: int | 0 <= n < LIMIT

  function Pow2(k: nat): (p: nat)
    ensures p > 0
  {
    if k == 0 then 1 else 2 * Pow2(k - 1)
  }

  lemma Pow2Splits(m: nat, n: nat)
    ensures Pow2(m) * Pow2(n) == Pow2(m + n)
  {
    hide Pow2;
    Pow2Double(m);
    if m > 0 {
      Pow2Splits(m - 1, n);
      Pow2Double(m + n);
      var x, y := Pow2(m - 1), Pow2(n);
      assert 2 * x * y == 2 * (x * y);
    }
  }

  lemma Pow2At8()
    ensures Pow2(8) == 256
  {
    assert Pow2(4) == 16;
  }

  lemma Pow2At64()
    ensures Pow2(64) == LIMIT && Pow2(63) * 2 == LIMIT && Pow2(32) == HALF && Pow2(31) * 2 == HALF
  {
    hide Pow2;
    Pow2At8();
    Pow2Splits(8, 8);
    Pow2Splits(16, 16);
    Pow2Splits(32, 32);
    Pow2Double(64);
    Pow2Double(32);
  }

  function Quo(a: nat, b: nat): nat
    requires b > 0
  {
    a / b
  }

  function Rem(a: nat, b: nat): nat
    requires b > 0
  {
    a % b
  }

  lemma QuoRem(a: nat, b: nat)
    requires b > 0
    ensures Quo(a, b) * b + Rem(a, b) == a && Rem(a, b) < b
  {
  }

  lemma QuoBelow(a: nat, b: nat)
    requires b > 0
    ensures Quo(a, b) <= a && Rem(a, b) <= a
  {
    hide Quo, Rem;
    QuoRem(a, b);
    MulAtLeast(Quo(a, b), b);
  }

  lemma MulAtLeast(q: nat, b: nat)
    requires b > 0
    ensures q * b >= q
  {
  }

  /** A quotient and a remainder that fit the dividend are the quotient and the remainder. */
  lemma Unique(a: nat, b: nat, q: nat, r: nat)
    requires b > 0 && q * b + r == a && r < b
    ensures q == Quo(a, b) && r == Rem(a, b)
  {
    hide Quo, Rem;
    QuoRem(a, b);
    var p := Quo(a, b);
    if p < q {
      MulMonotone(p + 1, q, b);
    } else if q < p {
      MulMonotone(q + 1, p, b);
    }
  }

  lemma MulMonotone(x: int, y: int, b: nat)
    requires x <= y
    ensures x * b <= y * b
  {
  }

  // ---------------------------------------------------------------- what the routines do

  /** How many multiples of the divisor times 2^32 are taken out first. */
  function High(a: U64, b: U64): nat
    requires b > 0
  {
    if a / HALF >= b then Quo(a / HALF, b) else 0
  }

  lemma HighFits(a: U64, b: U64)
    requires b > 0
    ensures High(a, b) * b <= a / HALF < (High(a, b) + 1) * b
    ensures High(a, b) <= a / HALF < HALF
  {
    hide Quo, Rem;
    QuoRem(a / HALF, b);
    QuoBelow(a / HALF, b);
  }

  function Reduced(a: U64, b: U64): (r: U64)
    requires b > 0
  {
    HighFits(a, b);
    a - High(a, b) * b * HALF
  }

  /** What taking those out puts into the quotient. */
  function HighPart(a: U64, b: U64): U64
    requires b > 0
  {
    HighFits(a, b);
    High(a, b) * HALF
  }

  /** The divisor after `k` doublings that wrap. */
  function Wrapped(b: U64, k: nat): U64 { Times(b, k) % LIMIT }

  lemma WrappedNext(b: U64, k: nat)
    ensures Wrapped(b, k + 1) == Wrapped(b, k) * 2 % LIMIT
  {
    TimesDouble(b, k + 1);
    DoubleModulo(Times(b, k));
  }

  lemma DoubleModulo(x: nat)
    ensures x % LIMIT * 2 % LIMIT == x * 2 % LIMIT
  {
    var q, r := x / LIMIT, x % LIMIT;
    if r * 2 < LIMIT {
      Unique(x * 2, LIMIT, q * 2, r * 2);
    } else {
      Unique(x * 2, LIMIT, q * 2 + 1, r * 2 - LIMIT);
      Unique(r * 2, LIMIT, 1, r * 2 - LIMIT);
    }
  }

  lemma WrappedEnds(b: U64)
    ensures Wrapped(b, 64) == 0
  {
    Pow2At64();
    assert b * LIMIT % LIMIT == 0;
  }

  /** How often the doubling loop runs, from its round `k` on. */
  function Rounds(b: U64, a: U64, k: nat): (n: nat)
    requires k <= 64
    ensures k <= n <= 64
    ensures !(0 < Wrapped(b, n) < a)
    ensures forall j :: k <= j < n ==> 0 < Wrapped(b, j) < a
    decreases 64 - k
  {
    WrappedEnds(b);
    if 0 < Wrapped(b, k) < a then Rounds(b, a, k + 1) else k
  }

  datatype Result = Result(quotient: U64, remainder: U64)

  function Plus(x: U64, y: U64): U64 { (x + y) % LIMIT }

  lemma PlusFits(x: U64, y: U64)
    requires x + y < LIMIT
    ensures Plus(x, y) == x + y
  {
  }

  /** The halving loop; its body runs at least once. */
  function Shrink(a: U64, b: U64, d: U64, res: U64): (r: Result)
    ensures r.remainder <= a
    decreases d
  {
    var a', res' := if a >= b then a - b else a, if a >= b then Plus(res, d) else res;
    if d / 2 == 0 then Result(res', a') else Shrink(a', b / 2, d / 2, res')
  }

  function DivRem(a: U64, b: U64): Result
    requires b > 0
  {
    var r := Reduced(a, b);
    var k := Rounds(b, r, 0);
    Shrink(r, Wrapped(b, k), Wrapped(1, k), HighPart(a, b))
  }

  // ---------------------------------------------------------------- when it is right

  /** Some doubling of the divisor reaches what is left of the dividend without wrapping. */
  ghost predicate Reaches(a: U64, b: U64)
    requires b > 0
  {
    exists k: nat :: Reduced(a, b) <= Times(b, k) < LIMIT
  }

  /** `b * Pow2(k)`. */
  function Times(b: nat, k: nat): nat { b * Pow2(k) }

  lemma TimesDouble(b: nat, k: nat)
    ensures Times(b, k) == if k == 0 then b else 2 * Times(b, k - 1)
    ensures b > 0 ==> Times(b, k) >= Pow2(k) && Times(b, k) > 0
  {
    hide Pow2;
    Pow2Double(k);
    if b > 0 {
      MulAtLeast(Pow2(k), b);
    }
  }

  lemma QuoStep(a: nat, b: nat, k: nat)
    requires b > 0 && a >= Times(b, k)
    ensures Quo(a, b) == Pow2(k) + Quo(a - Times(b, k), b) && Rem(a, b) == Rem(a - Times(b, k), b)
  {
    hide Pow2, Quo, Rem;
    var q := Quo(a - Times(b, k), b);
    QuoRem(a - Times(b, k), b);
    Unique(a, b, Pow2(k) + q, Rem(a - Times(b, k), b));
  }

  lemma QuoSmall(a: nat, b: nat)
    requires b > 0 && a < b
    ensures Quo(a, b) == 0 && Rem(a, b) == a
  {
    Unique(a, b, 0, a);
  }

  lemma Pow2Double(k: nat)
    ensures Pow2(k) == if k == 0 then 1 else 2 * Pow2(k - 1)
  {
  }

  lemma ShrinkMore(a: U64, c: U64, d: U64, res: U64)
    requires 2 * c < LIMIT && 2 * d < LIMIT && d > 0 && (a >= 2 * c ==> res + 2 * d < LIMIT)
    ensures Shrink(a, 2 * c, 2 * d, res)
            == if a >= 2 * c then Shrink(a - 2 * c, c, d, res + 2 * d) else Shrink(a, c, d, res)
  {
    hide Plus;
    if a >= 2 * c {
      PlusFits(res, 2 * d);
    }
  }

  lemma ShrinkLast(a: U64, c: U64, res: U64)
    requires a >= c ==> res + 1 < LIMIT
    ensures Shrink(a, c, 1, res) == if a >= c then Result(res + 1, a - c) else Result(res, a)
  {
    hide Plus;
    if a >= c {
      PlusFits(res, 1);
    }
  }

  /** The halving loop divides exactly when it starts from an exact multiple. */
  lemma {:induction false} ShrinkExact(a: U64, b: U64, k: nat, res: U64)
    requires b > 0 && Times(b, k) < LIMIT && Pow2(k) < LIMIT && a < 2 * Times(b, k)
    requires res + Quo(a, b) < LIMIT && Rem(a, b) < LIMIT
    ensures Shrink(a, Times(b, k), Pow2(k), res) == Result(res + Quo(a, b), Rem(a, b))
    decreases k
  {
    hide Shrink, Pow2, Times, Quo, Rem;
    TimesDouble(b, k);
    Pow2Double(k);
    if a >= Times(b, k) {
      QuoStep(a, b, k);
    }
    if k == 0 {
      ShrinkLast(a, b, res);
      QuoSmall(if a >= b then a - b else a, b);
    } else {
      ShrinkMore(a, Times(b, k - 1), Pow2(k - 1), res);
      if a >= Times(b, k) {
        ShrinkExact(a - Times(b, k), b, k - 1, res + Pow2(k));
      } else {
        ShrinkExact(a, b, k - 1, res);
      }
    }
  }

  // ---------------------------------------------------------------- when the doubling does not wrap

  lemma ReducedBelow(a: U64, b: U64)
    requires b > 0
    ensures Reduced(a, b) < b * HALF
    ensures a == High(a, b) * HALF * b + Reduced(a, b)
  {
    hide High;
    HighFits(a, b);
    var h, rest := High(a, b), a % HALF;
    assert a == a / HALF * HALF + rest;
    assert a / HALF - h * b <= b - 1 by { assert (h + 1) * b == h * b + b; }
    assert h * HALF * b == h * b * HALF;
  }

  /** The rounds stop at the first doubling that reaches the dividend. */
  lemma RoundsReach(a: U64, b: U64, k: nat)
    requires b > 0 && a <= Times(b, k) < LIMIT
    ensures var n := Rounds(b, a, 0);
            && n <= k && a <= Times(b, n) < LIMIT && Wrapped(b, n) == Times(b, n) && Wrapped(1, n) == Pow2(n) < LIMIT
  {
    hide Pow2, Wrapped, Times, Rounds;
    var n := Rounds(b, a, 0);
    NoWrap(b, k);
    TimesMonotone(b, n, k);
    NoWrap(b, n);
    TimesDouble(b, n);
  }

  lemma TimesMonotone(b: nat, j: nat, k: nat)
    ensures j <= k ==> Times(b, j) <= Times(b, k)
  {
    if j < k {
      TimesMonotone(b, j, k - 1);
      TimesDouble(b, k);
    }
  }

  lemma NoWrap(b: U64, k: nat)
    requires b > 0 && Times(b, k) < LIMIT
    ensures k < 64 && Pow2(k) < LIMIT && Wrapped(b, k) == Times(b, k) && Wrapped(1, k) == Pow2(k)
  {
    hide Pow2;
    TimesDouble(b, k);
    Pow2At64();
    if k >= 64 {
      Pow2Monotone(64, k);
    }
  }

  lemma Pow2Monotone(j: nat, k: nat)
    requires j <= k
    ensures Pow2(j) <= Pow2(k)
  {
    if j < k {
      Pow2Monotone(j, k - 1);
    }
  }

  /** The two parts of the dividend divide separately. */
  lemma PartsDivide(a: U64, b: U64)
    requires b > 0
    ensures Quo(a, b) == High(a, b) * HALF + Quo(Reduced(a, b), b) && Rem(a, b) == Rem(Reduced(a, b), b)
    ensures Quo(a, b) < LIMIT && Rem(a, b) < LIMIT
  {
    hide Reduced, High, Quo, Rem;
    var r, h := Reduced(a, b), High(a, b);
    ReducedBelow(a, b);
    QuoBelow(a, b);
    QuoRem(r, b);
    Unique(a, b, h * HALF + Quo(r, b), Rem(r, b));
  }

  /** Without a wrap the routines divide. */
  lemma ReachesExact(a: U64, b: U64)
    requires b > 0 && Reaches(a, b)
    ensures DivRem(a, b).quotient == Quo(a, b) && DivRem(a, b).remainder == Rem(a, b)
  {
    hide Shrink, Pow2, Times, Quo, Rem, Wrapped, Rounds, Reduced, High;
    var r := Reduced(a, b);
    var k :| r <= Times(b, k) < LIMIT;
    TimesDouble(b, Rounds(b, r, 0));
    RoundsReach(r, b, k);
    PartsDivide(a, b);
    HighFits(a, b);
    ShrinkExact(r, b, Rounds(b, r, 0), High(a, b) * HALF);
  }

  /** Half the range is always reached. */
  lemma HalfReaches(a: U64, b: U64)
    requires b > 0 && Reduced(a, b) <= LIMIT / 2
    ensures Reaches(a, b)
  {
    hide Pow2, Times, Reduced;
    var r := Reduced(a, b);
    TimesDouble(b, 0);
    var k := 0;
    while Times(b, k) < r
      invariant Times(b, k) < LIMIT
      decreases r - Times(b, k)
    {
      TimesDouble(b, k + 1);
      TimesDouble(b, k);
      k := k + 1;
    }
  }

  /** A dividend up to 2^63, or a divisor up to 2^31, is small enough. */
  lemma SmallReaches(a: U64, b: U64)
    requires b > 0 && (a <= LIMIT / 2 || b <= HALF / 2)
    ensures Reaches(a, b)
  {
    hide Reduced, High, Reaches;
    ReducedBelow(a, b);
    HalfReaches(a, b);
  }

  // ---------------------------------------------------------------- when it wraps

  lemma ShrinkOnce(a: U64, c: U64, d: U64, res: U64)
    requires res + d < LIMIT && d > 0
    ensures var a': U64, res': U64 := if a >= c then a - c else a, if a >= c then res + d else res;
            Shrink(a, c, d, res) == if d / 2 == 0 then Result(res', a') else Shrink(a', c / 2, d / 2, res')
  {
    hide Plus;
    PlusFits(res, d);
  }

  /** If no doubling reaches the dividend in time, nothing is taken out first, and the doubling wraps
      and goes on at least once more, or ends in zero. */
  lemma WrapsOn(a: U64, b: U64)
    requires b > 0 && !Reaches(a, b)
    ensures High(a, b) == 0 && Reduced(a, b) == a && 0 < b < a
    ensures var n := Rounds(b, a, 0);
            && n > 0 && Times(b, n) >= LIMIT
            && (Wrapped(b, n) > 0 ==> n < 64 && a <= Wrapped(b, n) && Times(b, n) >= 2 * LIMIT)
  {
    hide Reduced, High, Pow2, Times, Wrapped, Rounds;
    NothingTakenOut(a, b);
    var n := Rounds(b, a, 0);
    TimesDouble(b, 0);
    if Times(b, n) < LIMIT {
      NoWrap(b, n);
      TimesDouble(b, n);
    }
    if Wrapped(b, n) > 0 {
      WrappedEnds(b);
      TimesDouble(b, n);
      if Times(b, n - 1) < LIMIT {
        NoWrap(b, n - 1);
        WrappedNext(b, n - 1);
      }
    }
  }

  lemma NothingTakenOut(a: U64, b: U64)
    requires b > 0 && !Reaches(a, b)
    ensures High(a, b) == 0 && Reduced(a, b) == a && 0 < b < a
  {
    hide Reaches;
    if b <= HALF / 2 || Reduced(a, b) <= LIMIT / 2 || a <= LIMIT / 2 {
      SmallOrHalf(a, b);
    }
    ReducedBelow(a, b);
    assert High(a, b) == 0;
    if a <= b {
      TimesDouble(b, 0);
      ReachesAt(a, b, 0);
    }
  }

  lemma SmallOrHalf(a: U64, b: U64)
    requires b > 0 && (b <= HALF / 2 || Reduced(a, b) <= LIMIT / 2 || a <= LIMIT / 2)
    ensures Reaches(a, b)
  {
    hide Reaches;
    if Reduced(a, b) <= LIMIT / 2 {
      HalfReaches(a, b);
    } else {
      SmallReaches(a, b);
    }
  }

  lemma ReachesAt(a: U64, b: U64, k: nat)
    requires b > 0 && Reduced(a, b) <= Times(b, k) < LIMIT
    ensures Reaches(a, b)
  {
  }

  /** Subtracting nothing counts every time. */
  lemma {:induction false} ShrinkZero(a: U64, m: nat, res: U64)
    requires res + 2 * Pow2(m) <= LIMIT
    ensures Shrink(a, 0, Pow2(m), res) == Result(res + 2 * Pow2(m) - 1, a)
    decreases m
  {
    hide Pow2, Shrink;
    Pow2Double(m);
    ShrinkOnce(a, 0, Pow2(m), res);
    if m > 0 {
      ShrinkZero(a, m - 1, res + Pow2(m));
    }
  }

  /** What `n` doublings leave of the divisor: the bits that are not shifted out. */
  function Kept(b: U64, n: nat): nat
    requires n <= 64
  {
    Rem(b, Pow2(64 - n))
  }

  /** A wrapped doubling is an exact doubling of what is kept. */
  lemma WrappedKept(b: U64, n: nat)
    requires n <= 64
    ensures Kept(b, n) < Pow2(64 - n) && Times(Kept(b, n), n) < LIMIT
    ensures Wrapped(b, n) == Times(Kept(b, n), n)
  {
    hide Pow2, Quo, Rem;
    var p, d := Pow2(64 - n), Pow2(n);
    Pow2Splits(64 - n, n);
    Pow2At64();
    QuoRem(b, p);
    var q, k := Quo(b, p), Rem(b, p);
    MulMonotone(k + 1, p, d);
    assert Times(b, n) == q * LIMIT + k * d by { assert (q * p + k) * d == q * (p * d) + k * d; }
    Unique(Times(b, n), LIMIT, q, k * d);
    RemIs(Times(b, n));
  }

  /** `r` is `a` divided by `k`; by nothing, every turn of the halving loop counts and takes nothing. */
  predicate DividesBy(r: Result, a: nat, k: nat, n: nat) {
    if k > 0 then r.quotient == Quo(a, k) && r.remainder == Rem(a, k)
    else r.quotient == (if n < 64 then 2 * Pow2(n) - 1 else 0) && r.remainder == a
  }

  /** Once the doubling wraps, the routines divide by what is kept of the divisor; if that is nothing, the
      dividend is the remainder. */
  lemma KeptDivides(a: U64, b: U64)
    requires b > 0 && !Reaches(a, b)
    ensures var n := Rounds(b, a, 0);
            var k := Kept(b, n);
            && k < b < a
            && DividesBy(DivRem(a, b), a, k, n)
  {
    hide Reaches, Reduced, High, Pow2, Times, Wrapped, Rounds, Shrink, Quo, Rem, Kept, DivRem, DividesBy;
    WrapsOn(a, b);
    var n := Rounds(b, a, 0);
    var k := Kept(b, n);
    WrappedKept(b, n);
    KeptLess(b, n);
    TimesDouble(k, n);
    DivRemIs(a, b);
    ShrinkKept(a, k, n);
  }

  lemma ShrinkKept(a: U64, k: U64, n: nat)
    requires n <= 64 && Times(k, n) < LIMIT && (k > 0 ==> a <= Times(k, n))
    ensures DividesBy(Shrink(a, Times(k, n), Wrapped(1, n), 0), a, k, n)
  {
    hide Reaches, Pow2, Times, Wrapped, Shrink, Quo, Rem;
    TimesDouble(k, n);
    if k > 0 {
      NoWrap(k, n);
      QuoBelow(a, k);
      ShrinkExact(a, k, n, 0);
    } else {
      TimesZero(n);
      if n < 64 {
        PowersFit(n);
        ShrinkZero(a, n, 0);
      } else {
        WrappedEnds(1);
        ShrinkNothing(a);
      }
    }
  }

  lemma TimesZero(k: nat)
    ensures Times(0, k) == 0
  {
  }

  lemma KeptLess(b: U64, n: nat)
    requires n <= 64 && Times(b, n) >= LIMIT
    ensures Kept(b, n) < b
  {
    hide Pow2, Quo, Rem;
    QuoRem(b, Pow2(64 - n));
    WrappedKept(b, n);
    QuoBelow(b, Pow2(64 - n));
  }

  /** Once the doubling wraps, the quotient is wrong. */
  lemma WrapIsWrong(a: U64, b: U64)
    requires b > 0 && !Reaches(a, b)
    ensures DivRem(a, b).quotient != Quo(a, b)
  {
    hide Reaches, Reduced, High, Pow2, Times, Wrapped, Rounds, Quo, Rem, DivRem, Kept;
    WrapsOn(a, b);
    KeptDivides(a, b);
    var n := Rounds(b, a, 0);
    QuoAtLeastOne(a, b);
    if Kept(b, n) > 0 {
      WrappedKept(b, n);
      TimesDouble(Kept(b, n), n);
      QuotientsDiffer(a, b, Kept(b, n), n);
    } else if n < 64 {
      TooMuch(a, b, n, 2 * Pow2(n) - 1);
    }
  }

  /** Less than half of the divisor divides at least twice. */
  lemma QuotientsDiffer(a: nat, b: nat, k: nat, n: nat)
    requires 0 < k && 0 < b && Times(k, n) < LIMIT && Times(b, n) >= 2 * LIMIT
    ensures Quo(a, k) >= 2 * Quo(a, b)
  {
    hide Times, Quo, Rem;
    TimesTwice(k, n);
    TimesCancel(2 * k, b, n);
    QuoRem(a, b);
    MulMonotone(2 * k, b, Quo(a, b));
    QuoAtLeast(a, k, 2 * Quo(a, b));
  }

  lemma TimesTwice(k: nat, n: nat)
    ensures Times(2 * k, n) == 2 * Times(k, n)
  {
    hide Pow2;
  }

  lemma TimesCancel(b: nat, c: nat, n: nat)
    requires Times(b, n) < Times(c, n)
    ensures b < c
  {
    hide Pow2;
    if c <= b {
      MulMonotone(c, b, Pow2(n));
    }
  }

  lemma QuoAtLeast(a: nat, k: nat, m: nat)
    requires k > 0 && m * k <= a
    ensures Quo(a, k) >= m
  {
    hide Quo, Rem;
    QuoRem(a, k);
    if Quo(a, k) < m {
      MulMonotone(Quo(a, k) + 1, m, k);
    }
  }

  lemma QuoAtLeastOne(a: nat, b: nat)
    requires 0 < b <= a
    ensures Quo(a, b) >= 1
  {
    hide Quo, Rem;
    QuoRem(a, b);
  }

  lemma ShrinkNothing(a: U64)
    ensures Shrink(a, 0, 0, 0) == Result(0, a)
  {
    hide Plus;
    PlusFits(0, 0);
  }

  lemma PowersFit(n: nat)
    requires n < 64
    ensures 2 * Pow2(n) <= LIMIT && Wrapped(1, n) == Pow2(n)
  {
    hide Pow2;
    Pow2At64();
    Pow2Monotone(n, 63);
    assert Times(1, n) == Pow2(n);
  }

  /** A quotient that is too large for the dividend is not the quotient. */
  lemma TooMuch(a: U64, b: U64, n: nat, q: nat)
    requires b > 0 && Times(b, n) >= LIMIT && q >= Pow2(n)
    ensures q != Quo(a, b)
  {
    hide Pow2, Quo, Rem;
    MulMonotone(Pow2(n), q, b);
    QuoRem(a, b);
  }

  /** The routines give the quotient exactly when some doubling of the divisor reaches what is left of
      the dividend before it wraps; then the remainder is right as well. */
  lemma DividesIff(a: U64, b: U64)
    requires b > 0
    ensures DivRem(a, b).quotient == a / b <==> Reaches(a, b)
    ensures Reaches(a, b) ==> DivRem(a, b).remainder == a % b
  {
    hide Reaches, DivRem;
    if Reaches(a, b) {
      ReachesExact(a, b);
    } else {
      WrapIsWrong(a, b);
    }
  }

  /** The remainder is right exactly when the doubling reaches, or what it keeps of the divisor is something
      that happens to leave the same remainder. */
  lemma RemainderIff(a: U64, b: U64)
    requires b > 0
    ensures DivRem(a, b).remainder == a % b <==>
              Reaches(a, b) || (var k := Kept(b, Rounds(b, a, 0)); k > 0 && Rem(a, k) == Rem(a, b))
  {
    hide Reaches, DivRem, Kept, Rounds, Quo, Pow2;
    if Reaches(a, b) {
      ReachesExact(a, b);
    } else {
      KeptDivides(a, b);
      QuoRem(a, b);
    }
  }

  /** 173 by 19, both times 2^56: six doublings keep 3 of the 19, which leaves the same remainder 2. */
  lemma LuckyRemainder()
    ensures var unit: nat := 0x100_0000_0000_0000;
            var a: U64, b: U64 := 173 * unit, 19 * unit;
            && !Reaches(a, b) && DivRem(a, b) == Result(57, 2 * unit)
            && Quo(a, b) == 9 && Rem(a, b) == 2 * unit
  {
    hide Pow2, Times, Wrapped, Rounds, Reaches, Quo, Rem, Kept, DivRem;
    var unit: nat := 0x100_0000_0000_0000;
    var a: U64, b: U64 := 173 * unit, 19 * unit;
    LuckyRounds();
    Unique(a, b, 9, 2 * unit);
    Unique(a, 3 * unit, 57, 2 * unit);
    assert High(a, b) == 0 && Reduced(a, b) == a;
    WrappedKept(b, 6);
    ShrinkKept(a, 3 * unit, 6);
    DivRemIs(a, b);
    DividesIff(a, b);
  }

  lemma LuckyRounds()
    ensures var unit: nat := 0x100_0000_0000_0000;
            var a: U64, b: U64 := 173 * unit, 19 * unit;
            Rounds(b, a, 0) == 6 && Wrapped(b, 6) == 192 * unit && Kept(b, 6) == 3 * unit
  {
    hide Pow2, Times, Wrapped, Rounds, Quo, Rem;
    var unit: nat := 0x100_0000_0000_0000;
    var a: U64, b: U64 := 173 * unit, 19 * unit;
    Started(b);
    var k := 0;
    while k < 6
      invariant k <= 6 && Rounds(b, a, k) == Rounds(b, a, 0)
      invariant Wrapped(b, k) == [19, 38, 76, 152, 48, 96, 192][k] * unit
    {
      RoundsNext(b, a, k);
      WrappedNext(b, k);
      k := k + 1;
    }
    RoundsNext(b, a, 6);
    SixBits();
    Unique(b, 4 * unit, 4, 3 * unit);
  }

  lemma SixBits()
    ensures Pow2(58) == 0x400_0000_0000_0000
  {
    Pow2At64();
    Pow2Splits(58, 6);
    assert Pow2(6) == 64 by { assert Pow2(3) == 8; }
  }

  lemma DivRemIs(a: U64, b: U64)
    requires b > 0
    ensures var r := Reduced(a, b);
            var k := Rounds(b, r, 0);
            DivRem(a, b) == Shrink(r, Wrapped(b, k), Wrapped(1, k), HighPart(a, b))
  {
    hide Shrink, Rounds, Wrapped, High, HighPart, Reduced;
  }

  /** A divisor just above 2^32 wraps before it reaches the largest dividend, of which it is a factor; the
      doubling goes on until nothing is left of it, and the dividend comes back as the remainder. */
  lemma WrapInput()
    ensures !Reaches(LIMIT - 1, HALF + 1)
    ensures DivRem(LIMIT - 1, HALF + 1) == Result(0, LIMIT - 1)
    ensures Quo(LIMIT - 1, HALF + 1) == HALF - 1 && Rem(LIMIT - 1, HALF + 1) == 0
  {
    hide Pow2, Times, Rounds, Shrink, Wrapped, Reaches, Quo, Rem;
    var a: U64, b: U64 := LIMIT - 1, HALF + 1;
    Unique(a, b, HALF - 1, 0);
    assert Reduced(a, b) == a && High(a, b) == 0;
    var n := Rounds(b, a, 0);
    if n < 64 {
      WrapsBelow(n);
    }
    WrappedEnds(b);
    WrappedEnds(1);
    ShrinkNothing(a);
    if Reaches(a, b) {
      ReachesExact(a, b);
    }
  }

  /** Up to 63 doublings leave something smaller than the largest dividend. */
  lemma WrapsBelow(k: nat)
    requires k < 64
    ensures 0 < Wrapped(HALF + 1, k) < LIMIT - 1
  {
    hide Pow2, Quo, Rem;
    var b: U64 := HALF + 1;
    Pow2At64();
    Pow2Monotone(k, 63);
    TimesDouble(b, k);
    if k < 32 {
      Pow2Monotone(k, 31);
      assert Times(b, k) == HALF * Pow2(k) + Pow2(k);
      NoWrap(b, k);
    } else {
      Pow2Splits(32, k - 32);
      assert Times(b, k) == Pow2(k - 32) * LIMIT + Pow2(k) by {
        assert HALF * (HALF * Pow2(k - 32)) == Pow2(k - 32) * LIMIT;
      }
      Unique(Times(b, k), LIMIT, Pow2(k - 32), Pow2(k));
      RemIs(Times(b, k));
    }
  }

  lemma RemIs(x: nat)
    ensures x % LIMIT == Rem(x, LIMIT)
  {
  }

  // ---------------------------------------------------------------- the routines

  /** The doubling loop, as all three routines have it. */
  method Double(a: U64, divisor: U64) returns (b: U64, d: U64)
    requires divisor > 0
    ensures var n := Rounds(divisor, a, 0); b == Wrapped(divisor, n) && d == Wrapped(1, n)
  {
    hide Times, Wrapped, Rounds;
    b, d := divisor, 1;
    ghost var k := 0;
    Started(divisor);
    Started(1);
    while b > 0 && b < a
      invariant k <= 64 && b == Wrapped(divisor, k) && d == Wrapped(1, k)
      invariant Rounds(divisor, a, k) == Rounds(divisor, a, 0)
      decreases 64 - k
    {
      RoundsNext(divisor, a, k);
      WrappedNext(divisor, k);
      WrappedNext(1, k);
      b := b * 2 % LIMIT;
      d := d * 2 % LIMIT;
      k := k + 1;
    }
    RoundsNext(divisor, a, k);
  }

  lemma Started(b: U64)
    ensures Wrapped(b, 0) == b
  {
    TimesDouble(b, 0);
  }

  lemma RoundsNext(b: U64, a: U64, k: nat)
    requires k <= 64
    ensures if 0 < Wrapped(b, k) < a then k < 64 && Rounds(b, a, k) == Rounds(b, a, k + 1) else Rounds(b, a, k) == k
  {
    WrappedEnds(b);
  }

  lemma ReducedIs(a: U64, b: U64)
    requires b > 0
    ensures Reduced(a, b) == a - High(a, b) * b * HALF
    ensures High(a, b) == if a / HALF >= b then a / HALF / b else 0
    ensures High(a, b) * HALF < LIMIT
  {
    HighFits(a, b);
  }

  method Udivremi3(dividend: U64, divisor: U64) returns (quotient: U64, remainder: U64)
    requires divisor > 0
    ensures Result(quotient, remainder) == DivRem(dividend, divisor)
  {
    hide High, Reduced, Wrapped, Rounds, Shrink, Plus;
    ReducedIs(dividend, divisor);
    var a: U64, res: U64 := dividend, 0;
    var hig := a / HALF;
    if hig >= divisor {
      hig := hig / divisor;
      res := hig * HALF;
      a := a - hig * divisor * HALF;
    }
    assert a == Reduced(dividend, divisor);
    var b, d := Double(a, divisor);
    while true
      invariant Shrink(a, b, d, res) == DivRem(dividend, divisor)
      decreases d
    {
      ShrinkRound(a, b, d, res);
      if a >= b {
        a := a - b;
        res := Plus(res, d);
      }
      b := b / 2;
      d := d / 2;
      if d == 0 {
        return res, a;
      }
    }
  }

  method Udivdi3(dividend: U64, divisor: U64) returns (quotient: U64)
    requires divisor > 0
    ensures quotient == DivRem(dividend, divisor).quotient
  {
    hide High, Reduced, Wrapped, Rounds, Shrink, Plus;
    ReducedIs(dividend, divisor);
    var a: U64, res: U64 := dividend, 0;
    var hig := a / HALF;
    if hig >= divisor {
      hig := hig / divisor;
      res := hig * HALF;
      a := a - hig * divisor * HALF;
    }
    assert a == Reduced(dividend, divisor);
    var b, d := Double(a, divisor);
    while true
      invariant Shrink(a, b, d, res) == DivRem(dividend, divisor)
      decreases d
    {
      ShrinkRound(a, b, d, res);
      if a >= b {
        a := a - b;
        res := Plus(res, d);
      }
      b := b / 2;
      d := d / 2;
      if d == 0 {
        return res;
      }
    }
  }

  /** The remainder alone keeps no quotient, and needs none. */
  method Umoddi3(dividend: U64, divisor: U64) returns (remainder: U64)
    requires divisor > 0
    ensures remainder == DivRem(dividend, divisor).remainder
  {
    hide High, Reduced, Wrapped, Rounds, Shrink, Plus;
    ReducedIs(dividend, divisor);
    var a: U64 := dividend;
    var hig := a / HALF;
    if hig >= divisor {
      hig := hig / divisor;
      a := a - hig * divisor * HALF;
    }
    assert a == Reduced(dividend, divisor);
    var b, d := Double(a, divisor);
    ghost var res: U64 := High(dividend, divisor) * HALF;
    while true
      invariant Shrink(a, b, d, res) == DivRem(dividend, divisor)
      decreases d
    {
      ShrinkRound(a, b, d, res);
      if a >= b {
        a := a - b;
        res := Plus(res, d);
      }
      b := b / 2;
      d := d / 2;
      if d == 0 {
        return a;
      }
    }
  }

  lemma ShrinkRound(a: U64, b: U64, d: U64, res: U64)
    ensures var a': U64, res': U64 := if a >= b then a - b else a, if a >= b then Plus(res, d) else res;
            Shrink(a, b, d, res) == if d / 2 == 0 then Result(res', a') else Shrink(a', b / 2, d / 2, res')
  {
  }
}

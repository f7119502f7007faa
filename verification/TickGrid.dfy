/** Price precision from a market's tick size, and the decimal grid that book prices and spreads are put on. */
module TickGrid {
  import opened Options
  import opened Reals

  const CONTEXT_DIGITS: nat := 28
  const WEI_PRECISION: int := 18

  function Pow10(n: nat): nat
    ensures Pow10(n) >= 1
  {
    if n == 0 then 1 else 10 * Pow10(n - 1)
  }

  /** n / d to the nearest integer, ties to the even one. */
  function HalfEven(n: nat, d: nat): nat
    requires d > 0
  {
    var q, r := n / d, n % d;
    if 2 * r < d || (2 * r == d && q % 2 == 0) then q else q + 1
  }

  // ---------- decimals ----------

  /** A parsed text: a finite decimal is coefficient * 10 ^ exponent. */
  datatype Parsed = NotANumber | NotFinite | Decimal(negative: bool, coefficient: nat, exponent: int)

  /** How many digits a coefficient has beyond the context's `digits`. */
  function Excess(digits: nat, c: nat): nat {
    if c < Pow10(digits) then 0 else 1 + Excess(digits, c / 10)
  }

  function Rounded(digits: nat, c: nat, e: int): (nat, int) {
    var k := Excess(digits, c);
    var q := HalfEven(c, Pow10(k));
    if q == Pow10(digits) then (q / 10, e + k + 1) else (q, e + k)
  }

  function Stripped(c: nat, e: int): (r: (nat, int))
    ensures r.1 >= e
    ensures c > 0 ==> r.0 > 0 && r.0 % 10 != 0
    decreases c
  {
    if c > 0 && c % 10 == 0 then Stripped(c / 10, e + 1) else (c, e)
  }

  /** Rounded to the context, then without trailing zeros. */
  function Normalized(digits: nat, c: nat, e: int): (nat, int) {
    var r := Rounded(digits, c, e);
    Stripped(r.0, r.1)
  }

  function CanonicalTick(value: Parsed): Option<(nat, int)> {
    if !value.Decimal? || value.negative || value.coefficient == 0 then None
    else Some(Normalized(CONTEXT_DIGITS, value.coefficient, value.exponent))
  }

  function DerivedPrecision(digits: nat, c: nat, e: int): nat {
    var exponent := Normalized(digits, c, e).1;
    if exponent >= 0 then 0 else -exponent
  }

  function PricePrecision(value: Parsed): (r: Option<nat>)
    ensures r.Some? <==> value.Decimal? && !value.negative && value.coefficient > 0
                         && DerivedPrecision(CONTEXT_DIGITS, value.coefficient, value.exponent) <= 18
    ensures r.Some? ==> r.value == DerivedPrecision(CONTEXT_DIGITS, value.coefficient, value.exponent)
  {
    var tick := CanonicalTick(value);
    if tick.None? then None
    else
      var precision: nat := if tick.value.1 >= 0 then 0 else -tick.value.1;
      if precision > WEI_PRECISION then None else Some(precision)
  }

  // ---------- rounding to the context ----------

  /** q is a nearest integer to n / d, and the even one of two. */
  predicate IsHalfEven(n: nat, d: nat, q: nat) {
    && 2 * (n - d * q) <= d && 2 * (d * q - n) <= d
    && (2 * (n - d * q) == d || 2 * (d * q - n) == d ==> q % 2 == 0)
  }

  lemma HalfEvenExactly(n: nat, d: nat)
    requires d > 0
    ensures IsHalfEven(n, d, HalfEven(n, d))
  {
    var q := n / d;
    assert d * (q + 1) == d * q + d;
  }

  lemma {:induction false} ExcessLeast(digits: nat, c: nat)
    requires Excess(digits, c) > 0
    ensures c >= Pow10(Excess(digits, c) - 1) * Pow10(digits)
    decreases c
  {
    if Excess(digits, c) > 1 {
      ExcessLeast(digits, c / 10);
      TenTimesLess(c, Pow10(Excess(digits, c) - 2), Pow10(digits));
    }
  }

  lemma TenTimesLess(c: nat, a: nat, b: nat)
    requires c / 10 >= a * b
    ensures c >= (10 * a) * b
  {
    assert (10 * a) * b == 10 * (a * b);
  }

  lemma OneMoreTimes(d: nat, a: nat, b: nat)
    requires a < b
    ensures d * a + d <= d * b
  {
    var more: nat := b - a - 1;
    assert b == a + 1 + more;
    assert d * b == d * a + d + d * more;
    assert d * more >= 0;
  }

  /** The quotient has as many digits as the context, unless it is the next power of ten. */
  lemma HalfEvenFits(c: nat, d: nat, limit: nat, q: nat)
    requires d > 0 && IsHalfEven(c, d, q) && c < d * limit
    ensures q <= limit
  {
    if q > limit {
      OneMoreTimes(d, limit, q);
    }
  }

  lemma HalfEvenLarge(c: nat, d: nat, least: nat, q: nat)
    requires d > 0 && IsHalfEven(c, d, q) && c >= d * least
    ensures q >= least
  {
    if q < least {
      OneMoreTimes(d, q, least);
    }
  }

  lemma TenthAndTen(k: nat, digits: nat)
    requires k > 0 && digits > 0
    ensures Pow10(k - 1) * Pow10(digits) == Pow10(k) * Pow10(digits - 1)
  {
    assert Pow10(k) * Pow10(digits - 1) == Pow10(k - 1) * (10 * Pow10(digits - 1));
  }

  /** A coefficient is rounded, half to even, at the last digit the context keeps: it keeps as many digits as fit. */
  lemma RoundedExactly(digits: nat, c: nat, e: int)
    requires digits > 0
    ensures
      var (r, e') := Rounded(digits, c, e);
      && e <= e' && r < Pow10(digits) && (c < Pow10(digits) ==> (r, e') == (c, e))
      && (c >= Pow10(digits) ==> Pow10(digits - 1) <= r)
      && 2 * (c - r * Pow10(e' - e)) <= Pow10(e' - e) && 2 * (r * Pow10(e' - e) - c) <= Pow10(e' - e)
  {
    var k := Excess(digits, c);
    var q := HalfEven(c, Pow10(k));
    HalfEvenExactly(c, Pow10(k));
    ExcessFits(digits, c);
    HalfEvenFits(c, Pow10(k), Pow10(digits), q);
    if k > 0 {
      ExcessLeast(digits, c);
      TenthAndTen(k, digits);
      HalfEvenLarge(c, Pow10(k), Pow10(digits - 1), q);
    }
    if q == Pow10(digits) {
      CarriedIs(q, Pow10(k), Pow10(digits - 1), c);
    } else {
      assert q * Pow10(k) == Pow10(k) * q;
    }
  }

  lemma CarriedIs(q: nat, d: nat, tenth: nat, c: nat)
    requires q == 10 * tenth && d > 0 && IsHalfEven(c, d, q)
    ensures q / 10 == tenth
    ensures 2 * (c - tenth * (10 * d)) <= 10 * d && 2 * (tenth * (10 * d) - c) <= 10 * d
  {
    assert tenth * (10 * d) == d * q;
  }

  // ---------- the least precision ----------

  /** c * 10 ^ e is a whole number of units of 10 ^ -p. */
  predicate OnGrid(c: nat, e: int, p: nat) {
    e + p >= 0 || c % Pow10(-(e + p)) == 0
  }

  ghost predicate LeastPrecision(c: nat, e: int, p: nat) {
    OnGrid(c, e, p) && forall q | 0 <= q < p :: !OnGrid(c, e, q)
  }

  lemma {:induction false} StrippedIs(c: nat, e: int) returns (zeros: nat)
    requires c > 0
    ensures Stripped(c, e).1 == e + zeros && c == Stripped(c, e).0 * Pow10(zeros)
    decreases c
  {
    if c % 10 == 0 {
      var rest := StrippedIs(c / 10, e + 1);
      zeros := rest + 1;
      assert c == 10 * (c / 10) == 10 * (Stripped(c / 10, e + 1).0 * Pow10(rest));
    } else {
      zeros := 0;
    }
  }

  lemma {:induction false} StrippedShifted(m: nat, zeros: nat, e: int)
    requires m % 10 != 0
    ensures Stripped(m * Pow10(zeros), e) == (m, e + zeros)
  {
    if zeros > 0 {
      Shifted(m, zeros);
      StrippedShifted(m, zeros - 1, e + 1);
    }
  }

  lemma Shifted(m: nat, zeros: nat)
    requires zeros > 0
    ensures m * Pow10(zeros) == 10 * (m * Pow10(zeros - 1))
    ensures m * Pow10(zeros) / 10 == m * Pow10(zeros - 1)
    ensures m > 0 ==> m * Pow10(zeros) > 0
  {
    if m > 0 {
      Positive(m, Pow10(zeros));
    }
  }

  lemma Positive(a: nat, b: nat)
    requires a > 0 && b > 0
    ensures a * b >= a
  {
  }

  lemma {:induction false} ExcessShifted(digits: nat, m: nat, zeros: nat)
    requires m > 0
    ensures m < Pow10(digits) ==> Excess(digits, m * Pow10(zeros)) <= zeros
    ensures m >= Pow10(digits) ==> Excess(digits, m * Pow10(zeros)) > zeros
  {
    if zeros > 0 {
      ExcessShifted(digits, m, zeros - 1);
      Shifted(m, zeros);
      Positive(m, Pow10(zeros));
    }
  }

  lemma {:induction false} ExcessFits(digits: nat, c: nat)
    ensures c < Pow10(Excess(digits, c)) * Pow10(digits)
    decreases c
  {
    if c >= Pow10(digits) {
      ExcessFits(digits, c / 10);
      TenTimesMore(c, Pow10(Excess(digits, c / 10)), Pow10(digits));
    }
  }

  lemma TenTimesMore(c: nat, a: nat, b: nat)
    requires c / 10 < a * b
    ensures c < (10 * a) * b
  {
    assert (10 * a) * b == 10 * (a * b);
  }

  lemma SmallerFactor(d: nat, n: nat, limit: nat)
    requires d * n < d * limit
    ensures n < limit
  {
    assert d * (limit - n) > 0;
  }

  lemma SmallMultiple(d: nat, x: int)
    requires d * x < d && 0 - d < d * x
    ensures x == 0
  {
  }

  lemma QuotientUnique(c: nat, d: nat, q: nat, r: nat)
    requires d > 0 && c == d * q + r && r < d
    ensures c / d == q && c % d == r
  {
    assert d * (c / d - q) == r - c % d;
    SmallMultiple(d, c / d - q);
  }

  lemma {:induction false} PowSum(a: nat, b: nat)
    ensures Pow10(a + b) == Pow10(a) * Pow10(b)
  {
    if a > 0 {
      PowSum(a - 1, b);
    }
  }

  lemma Unshift(m: nat, zeros: nat, k: nat)
    requires k <= zeros
    ensures m * Pow10(zeros) == Pow10(k) * (m * Pow10(zeros - k))
  {
    PowSum(k, zeros - k);
  }

  lemma HalfEvenWhole(n: nat, d: nat)
    requires d > 0
    ensures HalfEven(d * n, d) == n && d * n / d == n
  {
    QuotientUnique(d * n, d, n, 0);
  }

  lemma RoundedWhole(digits: nat, c: nat, k: nat, e: int, n: nat)
    requires k == Excess(digits, c) && c == Pow10(k) * n
    ensures n < Pow10(digits) && Rounded(digits, c, e) == (n, e + k)
  {
    ExcessFits(digits, c);
    SmallerFactor(Pow10(k), n, Pow10(digits));
    HalfEvenWhole(n, Pow10(k));
  }

  /** A tick whose significant digits fit the context keeps all of them. */
  lemma NormalizedKeeps(digits: nat, c: nat, e: int)
    requires c > 0 && Stripped(c, e).0 < Pow10(digits)
    ensures Normalized(digits, c, e) == Stripped(c, e)
  {
    var zeros := StrippedIs(c, e);
    NormalizedInParts(digits, Stripped(c, e).0, zeros, Excess(digits, c), e);
  }

  lemma NormalizedInParts(digits: nat, m: nat, zeros: nat, k: nat, e: int)
    requires m % 10 != 0 && m < Pow10(digits) && k == Excess(digits, m * Pow10(zeros))
    ensures Normalized(digits, m * Pow10(zeros), e) == (m, e + zeros)
  {
    ExcessShifted(digits, m, zeros);
    Unshift(m, zeros, k);
    NormalizedWhole(digits, m * Pow10(zeros), k, e, m, zeros - k, m * Pow10(zeros - k));
  }

  lemma NormalizedWhole(digits: nat, c: nat, k: nat, e: int, m: nat, zeros: nat, n: nat)
    requires k == Excess(digits, c) && m % 10 != 0 && n == m * Pow10(zeros) && c == Pow10(k) * n
    ensures Normalized(digits, c, e) == (m, e + k + zeros)
  {
    RoundedWhole(digits, c, k, e, n);
    StrippedShifted(m, zeros, e + k);
    NormalizedFrom(digits, c, e, n, e + k);
  }

  lemma NormalizedFrom(digits: nat, c: nat, e: int, n: nat, e': int)
    requires Rounded(digits, c, e) == (n, e')
    ensures Normalized(digits, c, e) == Stripped(n, e')
  {
  }

  /** One that has more digits loses the last of them. */
  lemma NormalizedLoses(digits: nat, c: nat, e: int)
    requires c > 0 && Stripped(c, e).0 >= Pow10(digits)
    ensures Normalized(digits, c, e).1 > Stripped(c, e).1
  {
    var zeros := StrippedIs(c, e);
    ExcessShifted(digits, Stripped(c, e).0, zeros);
  }

  lemma ModTen(a: nat, b: nat)
    requires b > 0
    ensures (10 * a) % (10 * b) == 10 * (a % b)
  {
    QuotientUnique(10 * a, 10 * b, a / b, 10 * (a % b));
  }

  lemma MultipleOfTen(m: nat, k: nat)
    requires k > 0 && m % Pow10(k) == 0
    ensures m % 10 == 0
  {
    var t := m / Pow10(k);
    assert m == Pow10(k) * t == 10 * (Pow10(k - 1) * t);
  }

  lemma {:induction false} DividesExactly(m: nat, zeros: nat, k: nat)
    requires m > 0 && m % 10 != 0
    ensures m * Pow10(zeros) % Pow10(k) == 0 <==> k <= zeros
  {
    if k == 0 {
    } else if zeros == 0 {
      if m % Pow10(k) == 0 {
        MultipleOfTen(m, k);
      }
    } else {
      DividesExactly(m, zeros - 1, k - 1);
      Shifted(m, zeros);
      ModTen(m * Pow10(zeros - 1), Pow10(k - 1));
    }
  }

  lemma OnGridExactly(c: nat, e: int, p: nat)
    requires c > 0
    ensures OnGrid(c, e, p) <==> Stripped(c, e).1 + p >= 0
  {
    var zeros := StrippedIs(c, e);
    if e + p < 0 {
      DividesExactly(Stripped(c, e).0, zeros, -(e + p));
    }
  }

  /** The derived precision is the least one that represents the tick, exactly when its significant digits fit the
      context or it is a whole number. */
  lemma LeastPrecisionExactly(digits: nat, c: nat, e: int)
    requires c > 0
    ensures LeastPrecision(c, e, DerivedPrecision(digits, c, e))
            <==> Stripped(c, e).0 < Pow10(digits) || Stripped(c, e).1 >= 0
  {
    var s, p := Stripped(c, e), DerivedPrecision(digits, c, e);
    if s.0 < Pow10(digits) {
      NormalizedKeeps(digits, c, e);
    } else {
      NormalizedLoses(digits, c, e);
    }
    OnGridExactly(c, e, p);
    forall q | 0 <= q < p ensures OnGrid(c, e, q) <==> s.1 + q >= 0 {
      OnGridExactly(c, e, q);
    }
  }

  lemma OneTooMany(digits: nat, power: nat)
    requires power < Pow10(digits) <= 10 * power + 1
    ensures Excess(digits, 10 * power + 1) == 1
  {
    assert (10 * power + 1) / 10 == power;
  }

  lemma RoundedByOne(digits: nat, power: nat, e: int)
    requires power < Pow10(digits) && Excess(digits, 10 * power + 1) == 1
    ensures Rounded(digits, 10 * power + 1, e) == (power, e + 1)
  {
    assert Pow10(1) == 10 * Pow10(0) == 10;
    HalfEvenOfLast(power);
  }

  lemma HalfEvenOfLast(power: nat)
    ensures HalfEven(10 * power + 1, 10) == power
  {
  }

  lemma PowerStrips(zeros: nat, e: int)
    ensures Stripped(Pow10(zeros), e) == (1, e + zeros)
  {
    StrippedShifted(1, zeros, e);
    assert 1 * Pow10(zeros) == Pow10(zeros);
  }

  lemma NormalizesToOne(digits: nat, power: nat, zeros: nat, c: nat, e: int, e': int)
    requires c == 10 * power + 1 && power == Pow10(zeros) && e' == e + 1 && power < Pow10(digits) <= c
    ensures Normalized(digits, c, e) == (1, e' + zeros)
  {
    OneTooMany(digits, power);
    RoundedByOne(digits, power, e);
    PowerStrips(zeros, e');
    NormalizedFrom(digits, c, e, power, e');
  }

  lemma OneOver(power: nat)
    requires power > 1
    ensures (power + 1) % power == 1
  {
    QuotientUnique(power + 1, power, 1, 1);
  }

  /** A tick of one more digit than the context, a one at each end, normalizes to 1: it gets precision 0, which does
      not hold it. */
  lemma LastDigitLost(digits: nat, c: nat, e: int)
    requires digits >= 1 && c == Pow10(digits) + 1 && e == 0 - digits
    ensures Normalized(digits, c, e) == (1, 0) && DerivedPrecision(digits, c, e) == 0 && !OnGrid(c, e, 0)
  {
    var power := Pow10(digits - 1);
    NormalizesToOne(digits, power, digits - 1, c, e, e + 1);
    OneOver(Pow10(digits));
  }

  /** The tick 1.0000000000000000000000000001. */
  lemma TickOfTwentyNineDigits()
    ensures
      var c, e := Pow10(CONTEXT_DIGITS) + 1, 0 - CONTEXT_DIGITS;
      PricePrecision(Decimal(false, c, e)) == Some(0) && !OnGrid(c, e, 0)
  {
    LastDigitLost(CONTEXT_DIGITS, Pow10(CONTEXT_DIGITS) + 1, 0 - CONTEXT_DIGITS);
  }

  // ---------- quantization ----------

  /** 10 to any integer power. */
  function Ten(e: int): (r: real)
    ensures r > 0.0
  {
    if e >= 0 then Pow10(e) as real else 1.0 / Pow10(-e) as real
  }

  /** The value in units of 10 ^ -p. */
  function Units(x: real, p: nat): real {
    Times(x, Ten(p))
  }

  predicate InContext(n: int) {
    n < Pow10(CONTEXT_DIGITS) && -n < Pow10(CONTEXT_DIGITS)
  }

  function Nearest(x: real): int {
    var q := x.Floor;
    var r := x - q as real;
    if r < 0.5 || (r == 0.5 && q % 2 == 0) then q else q + 1
  }

  /** The value on the grid of 10 ^ -p; one whose coefficient would not fit the context stays as it is. */
  function Quantized(x: real, p: nat): real {
    var n := Nearest(Units(x, p));
    if InContext(n) then n as real / Ten(p) else x
  }

  function QuantizedMaybe(x: real, precision: Option<nat>): real {
    if precision.None? then x else Quantized(x, precision.value)
  }

  predicate GridValue(x: real, p: nat) {
    Units(x, p) == Units(x, p).Floor as real
  }

  predicate Fits(x: real, p: nat) {
    InContext(Nearest(Units(x, p)))
  }

  /** A nearest integer, and the even one of two. */
  lemma NearestIs(x: real)
    ensures x - 0.5 <= Nearest(x) as real <= x + 0.5
    ensures Nearest(x) as real == x - 0.5 || Nearest(x) as real == x + 0.5 ==> Nearest(x) % 2 == 0
    ensures x == x.Floor as real ==> Nearest(x) == x.Floor
  {
  }

  /** Where the multiple is half a unit off it is even. */
  predicate EvenWhereTied(x: real, n: real) {
    n - x == 0.5 || x - n == 0.5 ==> n.Floor % 2 == 0
  }

  lemma NearestMonotone(x: real, y: real)
    requires x <= y
    ensures Nearest(x) <= Nearest(y)
  {
  }

  /** A quantized value lies on the grid, within half a unit of what it was, at the even multiple of the unit where two
      are as near; one that would not fit the context stays as it is. */
  lemma QuantizedNear(x: real, p: nat)
    ensures Fits(x, p) ==> EvenWhereTied(Units(x, p), Units(Quantized(x, p), p))
    ensures !Fits(x, p) ==> Quantized(x, p) == x
    ensures Fits(x, p) ==> GridValue(Quantized(x, p), p) && Units(Quantized(x, p), p) == Nearest(Units(x, p)) as real
    ensures -0.5 <= Units(Quantized(x, p), p) - Units(x, p) <= 0.5
  {
    NearestIs(Units(x, p));
    if Fits(x, p) {
      UnitsOfWhole(Nearest(Units(x, p)), p);
    }
  }

  lemma UnitsOfWhole(n: int, p: nat)
    ensures Units(n as real / Ten(p), p) == n as real && (n as real).Floor == n
  {
  }

  /** A value already on the grid does not change. */
  lemma GridValueKept(x: real, p: nat)
    requires GridValue(x, p)
    ensures Quantized(x, p) == x
  {
    NearestIs(Units(x, p));
    QuotientIs(Units(x, p), Ten(p), x);
  }

  lemma QuantizedTwice(x: real, p: nat)
    ensures Quantized(Quantized(x, p), p) == Quantized(x, p)
  {
    QuantizedNear(x, p);
    if Fits(x, p) {
      GridValueKept(Quantized(x, p), p);
    }
  }

  lemma UnitsOrder(x: real, y: real, p: nat)
    ensures x <= y <==> Units(x, p) <= Units(y, p)
    ensures Units(x - y, p) == Units(x, p) - Units(y, p)
  {
    ProductPositive(x - y, Ten(p));
  }

  /** Quantization keeps order, even between a value that fits and one that does not. */
  lemma QuantizedMonotone(x: real, y: real, p: nat)
    requires x <= y
    ensures Quantized(x, p) <= Quantized(y, p)
  {
    UnitsOrder(x, y, p);
    NearestMonotone(Units(x, p), Units(y, p));
    QuantizedNear(x, p);
    QuantizedNear(y, p);
    NearestIs(Units(x, p));
    NearestIs(Units(y, p));
    UnitsOrder(Quantized(x, p), Quantized(y, p), p);
  }

  // ---------- spreads ----------

  function Spread(ask: real, bid: real, precision: Option<nat>): real {
    QuantizedMaybe(ask - bid, precision)
  }

  /** The spread between a quantized ask and bid is their exact difference, never negative for an uncrossed book, and
      within one unit of the raw spread. */
  lemma SpreadExactly(ask: real, bid: real, p: nat)
    requires Fits(ask, p) && Fits(bid, p)
    ensures
      var spread := Spread(Quantized(ask, p), Quantized(bid, p), Some(p));
      && spread == Quantized(ask, p) - Quantized(bid, p)
      && (bid <= ask ==> spread >= 0.0)
      && -1.0 <= Units(spread - (ask - bid), p) <= 1.0
  {
    var a, b := Quantized(ask, p), Quantized(bid, p);
    QuantizedNear(ask, p);
    QuantizedNear(bid, p);
    GridDifference(a, b, p);
    Drift(a, b, ask, bid, p);
    if bid <= ask {
      QuantizedMonotone(bid, ask, p);
    }
  }

  lemma GridDifference(a: real, b: real, p: nat)
    requires GridValue(a, p) && GridValue(b, p)
    ensures Quantized(a - b, p) == a - b
  {
    UnitsOrder(a, b, p);
    DifferenceOnGrid(Units(a, p), Units(b, p));
    GridValueKept(a - b, p);
  }

  lemma Drift(a: real, b: real, ask: real, bid: real, p: nat)
    requires -0.5 <= Units(a, p) - Units(ask, p) <= 0.5 && -0.5 <= Units(b, p) - Units(bid, p) <= 0.5
    ensures -1.0 <= Units(a - b - (ask - bid), p) <= 1.0
  {
    UnitsOrder(a, b, p);
    UnitsOrder(ask, bid, p);
    UnitsOrder(a - b, ask - bid, p);
  }

  lemma DifferenceOnGrid(x: real, y: real)
    requires x == x.Floor as real && y == y.Floor as real
    ensures x - y == (x - y).Floor as real
  {
    var n := x.Floor - y.Floor;
    assert x - y == n as real;
  }

  /** Whatever the magnitudes and with or without a precision, an uncrossed book has no negative spread. */
  lemma SpreadNonNegative(ask: real, bid: real, precision: Option<nat>)
    requires bid <= ask
    ensures Spread(QuantizedMaybe(ask, precision), QuantizedMaybe(bid, precision), precision) >= 0.0
    ensures precision == None ==>
      Spread(QuantizedMaybe(ask, precision), QuantizedMaybe(bid, precision), precision) == ask - bid
  {
    if precision.Some? {
      var p := precision.value;
      QuantizedMonotone(bid, ask, p);
      QuantizedMonotone(0.0, Quantized(ask, p) - Quantized(bid, p), p);
      assert Units(0.0, p) == 0.0;
      GridValueKept(0.0, p);
    }
  }

  // ---------- tick-aligned prices ----------

  function TickValue(c: nat, e: int): real {
    Times(c as real, Ten(e))
  }

  lemma Inverse(n: nat)
    ensures Times(Ten(0 - n), Ten(n)) == 1.0
  {
    if n > 0 {
      assert 1.0 / Pow10(n) as real * Pow10(n) as real == 1.0;
    }
  }

  lemma TenSumNat(a: nat, b: nat)
    ensures Times(Ten(a), Ten(b)) == Ten(a + b)
  {
    PowSum(a, b);
    TimesWhole(Pow10(a), Pow10(b));
  }

  lemma TenSum(e: int, p: nat)
    ensures Times(Ten(e), Ten(p)) == Ten(e + p)
  {
    if e >= 0 {
      TenSumNat(e, p);
    } else if e + p >= 0 {
      TenSumNat(0 - e, e + p);
      Inverse(0 - e);
      TimesAssociates(Ten(e), Ten(0 - e), Ten(e + p));
      TimesOne(Ten(e + p));
    } else {
      var k := -(e + p);
      TenSumNat(p, k);
      Inverse(0 - e);
      Inverse(k);
      TimesAssociates(Ten(e), Ten(p), Ten(k));
      TimesCancels(Times(Ten(e), Ten(p)), Ten(e + p), Ten(k));
    }
  }

  /** A tick on the grid is a whole number of units. */
  lemma GridTick(c: nat, e: int, p: nat) returns (units: nat)
    requires OnGrid(c, e, p)
    ensures Units(TickValue(c, e), p) == units as real
  {
    TenSum(e, p);
    TimesAssociates(c as real, Ten(e), Ten(p));
    if e + p >= 0 {
      units := c * Pow10(e + p);
      TimesWhole(c, Pow10(e + p));
    } else {
      var k := -(e + p);
      var d := Pow10(k);
      units := c / d;
      assert c == units * d;
      TimesWhole(units, d);
      Inverse(k);
      TimesAssociates(units as real, Ten(k), Ten(e + p));
      TimesOne(units as real);
    }
  }

  /** Every whole number of ticks is represented without loss at the tick's precision. */
  lemma TickAlignedLossless(value: Parsed, ticks: int)
    requires PricePrecision(value).Some?
    requires
      var stripped := Stripped(value.coefficient, value.exponent);
      stripped.0 < Pow10(CONTEXT_DIGITS) || stripped.1 >= 0
    ensures
      var price := Times(ticks as real, TickValue(value.coefficient, value.exponent));
      Quantized(price, PricePrecision(value).value) == price
  {
    var c, e, p := value.coefficient, value.exponent, PricePrecision(value).value;
    LeastPrecisionExactly(CONTEXT_DIGITS, c, e);
    var units := GridTick(c, e, p);
    TimesAssociates(ticks as real, TickValue(c, e), Ten(p));
    TimesWhole(ticks, units);
    assert ((ticks * units) as real).Floor == ticks * units;
    GridValueKept(Times(ticks as real, TickValue(c, e)), p);
  }
}

/** The moving-average and relative-strength indicators of the momentum strategy, and the direction they point to. */
module BinaryMomentum {
  import opened Options
  import opened Reals
  import opened Sides

  // ---------- exponential moving averages ----------

  function Sum(data: seq<real>, n: nat): real
    requires n <= |data|
  {
    if n == 0 then 0.0 else Sum(data, n - 1) + data[n - 1]
  }

  function Mean(data: seq<real>, n: int): real
    requires 1 <= n <= |data|
  {
    Sum(data, n) / n as real
  }

  function Blend(weight: real, x: real, average: real): real {
    x * weight + average * (1.0 - weight)
  }

  function Weight(period: int): real
    requires period >= 1
  {
    2.0 / (period as real + 1.0)
  }

  /** The average after the first n prices. */
  function EmaAt(data: seq<real>, period: int, n: nat): real
    requires 1 <= period <= n <= |data|
  {
    if n == period then Mean(data, period)
    else Blend(Weight(period), data[n - 1], EmaAt(data, period, n - 1))
  }

  method ComputeEma(data: seq<real>, period: int) returns (result: seq<real>)
    requires period >= 1
    ensures |result| == if |data| < period then 0 else |data| - period + 1
    ensures forall j | 0 <= j < |result| :: result[j] == EmaAt(data, period, period + j)
  {
    if |data| < period {
      return [];
    }
    var k := Weight(period);
    var ema := Mean(data, period);
    result := [ema];
    for i := period to |data|
      invariant |result| == i - period + 1
      invariant ema == EmaAt(data, period, i)
      invariant forall j | 0 <= j < |result| :: result[j] == EmaAt(data, period, period + j)
    {
      ema := Blend(k, data[i], ema);
      result := result + [ema];
    }
  }

  ghost predicate Within(data: seq<real>, n: nat, low: real, high: real)
    requires n <= |data|
  {
    forall i | 0 <= i < n :: low <= data[i] <= high
  }

  lemma {:induction false} SumWithin(data: seq<real>, n: nat, low: real, high: real)
    requires n <= |data| && Within(data, n, low, high)
    ensures n as real * low <= Sum(data, n) <= n as real * high
  {
    if n > 0 {
      SumWithin(data, n - 1, low, high);
      assert n as real * low == (n - 1) as real * low + low;
      assert n as real * high == (n - 1) as real * high + high;
    }
  }

  lemma DivideWithin(total: real, n: int, low: real, high: real)
    requires n >= 1 && n as real * low <= total <= n as real * high
    ensures low <= total / n as real <= high
  {
    QuotientOrder(total, n as real, low);
    QuotientOrder(total, n as real, high);
  }

  lemma BlendWithin(weight: real, x: real, average: real, low: real, high: real)
    requires 0.0 <= weight <= 1.0 && low <= x <= high && low <= average <= high
    ensures low <= Blend(weight, x, average) <= high
  {
    var rest := 1.0 - weight;
    ProductNonNegative(x - low, weight);
    ProductNonNegative(average - low, rest);
    ProductNonNegative(high - x, weight);
    ProductNonNegative(high - average, rest);
    assert Blend(weight, x, average) - low == (x - low) * weight + (average - low) * rest;
    assert high - Blend(weight, x, average) == (high - x) * weight + (high - average) * rest;
  }

  lemma WeightWithin(period: int)
    requires period >= 1
    ensures 0.0 < Weight(period) <= 1.0
  {
    QuotientOrder(2.0, period as real + 1.0, 0.0);
    QuotientOrder(2.0, period as real + 1.0, 1.0);
  }

  /** Every average stays between any bounds on the prices it has seen, so between their least and greatest. */
  lemma {:induction false} EmaWithin(data: seq<real>, period: int, n: nat, low: real, high: real)
    requires 1 <= period <= n <= |data| && Within(data, n, low, high)
    ensures low <= EmaAt(data, period, n) <= high
  {
    if n == period {
      SumWithin(data, n, low, high);
      DivideWithin(Sum(data, n), n, low, high);
    } else {
      EmaWithin(data, period, n - 1, low, high);
      WeightWithin(period);
      BlendWithin(Weight(period), data[n - 1], EmaAt(data, period, n - 1), low, high);
    }
  }

  // ---------- what share each price has in an average ----------

  function Power(x: real, n: nat): real {
    if n == 0 then 1.0 else x * Power(x, n - 1)
  }

  /** The share of the k-th value among n in an average that begins as the mean of the first `period` values and takes
      in each later one with the weight: what came in early has been kept n - 1 - k times, the mean n - period times. */
  function Share(weight: real, period: int, n: nat, k: nat): real
    requires 1 <= period <= n && k < n
  {
    if k < period then Power(1.0 - weight, n - period) / period as real else weight * Power(1.0 - weight, n - 1 - k)
  }

  /** The sum of the first m values, each times its share. */
  function Shares(data: seq<real>, weight: real, period: int, n: nat, m: nat): real
    requires 1 <= period <= n <= |data| && m <= n
  {
    if m == 0 then 0.0
    else Shares(data, weight, period, n, m - 1) + Times(data[m - 1], Share(weight, period, n, m - 1))
  }

  lemma ShareFades(weight: real, period: int, n: nat, k: nat)
    requires 1 <= period <= n && k < n
    ensures Share(weight, period, n + 1, k) == Times(1.0 - weight, Share(weight, period, n, k))
  {
    if k < period {
      PowerGrows(1.0 - weight, n + 1 - period);
      TimesOver(1.0 - weight, Power(1.0 - weight, n - period), period as real);
    } else {
      PowerGrows(1.0 - weight, n - k);
      TimesSwap(weight, 1.0 - weight, Power(1.0 - weight, n - 1 - k));
    }
  }

  lemma PowerGrows(x: real, n: nat)
    requires n > 0
    ensures Power(x, n) == Times(x, Power(x, n - 1))
  {
  }

  lemma TimesOver(a: real, b: real, d: real)
    requires d > 0.0
    ensures Times(a, b) / d == Times(a, b / d)
  {
    var q := b / d;
    assert q * d == b;
    assert (a * q) * d == a * b;
    QuotientIs(a * b, d, a * q);
  }

  lemma TimesSwap(a: real, b: real, c: real)
    ensures a * Times(b, c) == Times(b, a * c)
  {
    assert a * (b * c) == b * (a * c);
  }

  lemma {:induction false} SharesFade(data: seq<real>, weight: real, period: int, n: nat, m: nat)
    requires 1 <= period <= n < |data| && m <= n
    ensures Shares(data, weight, period, n + 1, m) == Times(1.0 - weight, Shares(data, weight, period, n, m))
  {
    if m > 0 {
      SharesFade(data, weight, period, n, m - 1);
      ShareFades(weight, period, n, m - 1);
      var rest, share, sum := 1.0 - weight, Share(weight, period, n, m - 1), Shares(data, weight, period, n, m - 1);
      Distributed(rest, sum, data[m - 1], share);
    }
  }

  lemma Distributed(rest: real, sum: real, x: real, share: real)
    ensures Times(rest, sum) + Times(x, Times(rest, share)) == Times(rest, sum + Times(x, share))
  {
    assert x * (rest * share) == rest * (x * share);
  }

  lemma {:induction false} SharesOfMean(data: seq<real>, weight: real, period: int, m: nat)
    requires 1 <= period <= |data| && m <= period
    ensures Shares(data, weight, period, period, m) == Sum(data, m) / period as real
  {
    var d := period as real;
    if m > 0 {
      SharesOfMean(data, weight, period, m - 1);
      var one := Share(weight, period, period, m - 1);
      assert Power(1.0 - weight, 0) == 1.0 && one == 1.0 / d && one * d == 1.0;
      SumOverDivisor(Sum(data, m - 1), data[m - 1], d);
    } else {
      QuotientIs(0.0, d, 0.0);
    }
  }

  lemma SumOverDivisor(a: real, b: real, d: real)
    requires d > 0.0
    ensures a / d + Times(b, 1.0 / d) == (a + b) / d
  {
    var x, y := a / d, 1.0 / d;
    assert x * d == a && y * d == 1.0;
    assert (x + b * y) * d == x * d + b * (y * d) == a + b;
    QuotientIs(a + b, d, x + b * y);
  }

  /** The average that blends each later value in with one weight. */
  function AverageAt(data: seq<real>, weight: real, period: int, n: nat): real
    requires 1 <= period <= n <= |data|
  {
    if n == period then Mean(data, period)
    else Blend(weight, data[n - 1], AverageAt(data, weight, period, n - 1))
  }

  lemma {:induction false} AverageIs(data: seq<real>, weight: real, period: int, n: nat)
    requires 1 <= period <= n <= |data|
    ensures AverageAt(data, weight, period, n) == Shares(data, weight, period, n, n)
  {
    if n == period {
      SharesOfMean(data, weight, period, period);
    } else {
      AverageIs(data, weight, period, n - 1);
      SharesFade(data, weight, period, n - 1, n - 1);
      LatestShare(weight, period, n);
      BlendIs(weight, data[n - 1], Shares(data, weight, period, n - 1, n - 1));
    }
  }

  lemma LatestShare(weight: real, period: int, n: nat)
    requires 1 <= period < n
    ensures Share(weight, period, n, n - 1) == weight
  {
    assert Power(1.0 - weight, 0) == 1.0;
  }

  lemma BlendIs(weight: real, x: real, average: real)
    ensures Blend(weight, x, average) == Times(1.0 - weight, average) + Times(x, weight)
  {
  }

  /** The exponential average in closed form: of n prices, each of the first `period` has the share
      (1 - k)^(n - period) / period, the i-th of the later ones k * (1 - k)^(n - 1 - i), where k = 2 / (period + 1). */
  lemma {:induction false} EmaIs(data: seq<real>, period: int, n: nat)
    requires 1 <= period <= n <= |data|
    ensures EmaAt(data, period, n) == Shares(data, 2.0 / (period as real + 1.0), period, n, n)
  {
    EmaIsAverage(data, period, n);
    AverageIs(data, Weight(period), period, n);
  }

  lemma {:induction false} EmaIsAverage(data: seq<real>, period: int, n: nat)
    requires 1 <= period <= n <= |data|
    ensures EmaAt(data, period, n) == AverageAt(data, Weight(period), period, n)
  {
    if n > period {
      EmaIsAverage(data, period, n - 1);
    }
  }

  function Affine(scale: real, shift: real, x: real): real {
    scale * x + shift
  }

  function Moved(scale: real, shift: real, data: seq<real>): (r: seq<real>)
    ensures |r| == |data| && forall i | 0 <= i < |r| :: r[i] == Affine(scale, shift, data[i])
  {
    seq(|data|, i requires 0 <= i < |data| => Affine(scale, shift, data[i]))
  }

  lemma {:induction false} SumMoved(scale: real, shift: real, data: seq<real>, n: nat)
    requires n <= |data|
    ensures Sum(Moved(scale, shift, data), n) == scale * Sum(data, n) + n as real * shift
  {
    if n > 0 {
      SumMoved(scale, shift, data, n - 1);
      assert scale * Sum(data, n) == scale * Sum(data, n - 1) + scale * data[n - 1];
      assert n as real * shift == (n - 1) as real * shift + shift;
    }
  }

  lemma MeanMoved(scale: real, shift: real, data: seq<real>, n: int)
    requires 1 <= n <= |data|
    ensures Mean(Moved(scale, shift, data), n) == Affine(scale, shift, Mean(data, n))
  {
    SumMoved(scale, shift, data, n);
    OverMoved(scale, shift, Sum(data, n), n as real);
  }

  lemma OverMoved(scale: real, shift: real, total: real, m: real)
    requires m > 0.0
    ensures (scale * total + m * shift) / m == Affine(scale, shift, total / m)
  {
    var mean := total / m;
    assert mean * m == total;
    assert (scale * mean) * m == scale * (mean * m);
    assert (scale * mean + shift) * m == (scale * mean) * m + shift * m;
    QuotientIs(scale * total + m * shift, m, scale * mean + shift);
  }

  lemma BlendMoved(weight: real, scale: real, shift: real, x: real, average: real)
    ensures Blend(weight, Affine(scale, shift, x), Affine(scale, shift, average)) ==
            Affine(scale, shift, Blend(weight, x, average))
  {
    var rest := 1.0 - weight;
    assert (scale * x + shift) * weight == scale * (x * weight) + shift * weight;
    assert (scale * average + shift) * rest == scale * (average * rest) + shift * rest;
    assert shift * weight + shift * rest == shift;
    assert scale * (x * weight + average * rest) == scale * (x * weight) + scale * (average * rest);
  }

  /** Averages move with their prices. */
  lemma {:induction false} EmaMoved(scale: real, shift: real, data: seq<real>, period: int, n: nat)
    requires 1 <= period <= n <= |data|
    ensures EmaAt(Moved(scale, shift, data), period, n) == Affine(scale, shift, EmaAt(data, period, n))
  {
    if n == period {
      MeanMoved(scale, shift, data, period);
    } else {
      EmaMoved(scale, shift, data, period, n - 1);
      BlendMoved(Weight(period), scale, shift, data[n - 1], EmaAt(data, period, n - 1));
    }
  }

  // ---------- MACD ----------

  /** A list index as Python reads it: a negative one counts from the end. */
  function ListIndex(length: nat, i: int): Option<nat> {
    if 0 <= i < length then Some(i) else if i < 0 && length + i >= 0 then Some(length + i) else None
  }

  datatype Periods = Periods(fast: int, slow: int, signal: int)
  {
    predicate Usable() {
      fast >= 1 && slow >= 1 && signal >= 1
    }

    predicate Enough(n: nat) {
      n >= slow + signal && n >= fast
    }
  }

  datatype Macd = Macd(line: real, signal: real, histogram: real)

  datatype MacdResult = NotEnough | IndexError | Computed(macd: Macd)

  /** The position in the fast averages that the i-th slow average is paired with. */
  function PairedWith(p: Periods, n: nat, i: nat): Option<nat>
    requires p.fast <= n
  {
    ListIndex(n - p.fast + 1, i + p.slow - p.fast)
  }

  predicate AllPaired(p: Periods, n: nat)
    requires p.Usable() && p.Enough(n)
  {
    forall i | 0 <= i < n - p.slow + 1 :: PairedWith(p, n, i).Some?
  }

  /** The difference of the i-th pair of averages. */
  function LineAt(prices: seq<real>, p: Periods, i: nat): real
    requires p.Usable() && p.Enough(|prices|) && i < |prices| - p.slow + 1 && PairedWith(p, |prices|, i).Some?
  {
    EmaAt(prices, p.fast, p.fast + PairedWith(p, |prices|, i).value) - EmaAt(prices, p.slow, p.slow + i)
  }

  function Line(prices: seq<real>, p: Periods): (line: seq<real>)
    requires p.Usable() && p.Enough(|prices|) && AllPaired(p, |prices|)
    ensures |line| == |prices| - p.slow + 1 && forall i | 0 <= i < |line| :: line[i] == LineAt(prices, p, i)
  {
    var n := |prices| - p.slow + 1;
    seq(n, i requires 0 <= i < n && PairedWith(p, |prices|, i).Some? => LineAt(prices, p, i))
  }

  function MacdOf(prices: seq<real>, p: Periods): Macd
    requires p.Usable() && p.Enough(|prices|) && AllPaired(p, |prices|)
  {
    var line := Line(prices, p);
    var last, signal := line[|line| - 1], EmaAt(line, p.signal, |line|);
    Macd(last, signal, last - signal)
  }

  method ComputeMacd(prices: seq<real>, p: Periods) returns (r: MacdResult)
    requires p.Usable()
    ensures r == if |prices| < p.slow + p.signal || |prices| < p.fast then NotEnough
                 else if AllPaired(p, |prices|) then Computed(MacdOf(prices, p)) else IndexError
  {
    var need := p.slow + p.signal;
    if |prices| < need {
      return NotEnough;
    }
    var fast := ComputeEma(prices, p.fast);
    var slow := ComputeEma(prices, p.slow);
    if fast == [] || slow == [] {
      return NotEnough;
    }
    var offset := p.slow - p.fast;
    var line: seq<real> := [];
    for i := 0 to |slow|
      invariant |line| == i
      invariant forall k | 0 <= k < i :: PairedWith(p, |prices|, k).Some?
      invariant forall k | 0 <= k < i :: line[k] == LineAt(prices, p, k)
    {
      var at := ListIndex(|fast|, i + offset);
      assert at == PairedWith(p, |prices|, i);
      if at.None? {
        return IndexError;
      }
      line := line + [fast[at.value] - slow[i]];
    }
    var macd := MacdOfLine(line, p.signal);
    assert line == Line(prices, p);
    r := Computed(macd);
  }

  /** Line, signal and histogram of the list of differences. */
  method MacdOfLine(line: seq<real>, period: int) returns (macd: Macd)
    requires 1 <= period <= |line|
    ensures macd.line == line[|line| - 1] && macd.signal == EmaAt(line, period, |line|)
    ensures macd.histogram == macd.line - macd.signal
  {
    var signals := ComputeEma(line, period);
    var last, signal := line[|line| - 1], signals[|signals| - 1];
    macd := Macd(last, signal, last - signal);
  }

  /** Each slow average is paired with the fast average that ends at the same price exactly when the fast period is
      not the longer one. A longer fast period pairs across the list's end, or runs off it. */
  lemma PairsExactly(p: Periods, n: nat)
    requires p.Usable() && p.Enough(n)
    ensures (forall i | 0 <= i < n - p.slow + 1 ::
            PairedWith(p, n, i).Some? && p.fast + PairedWith(p, n, i).value == p.slow + i)
            <==> p.fast <= p.slow
    ensures AllPaired(p, n) <==> 2 * p.fast <= n + 1 + p.slow
  {
    var first := PairedWith(p, n, 0);
    if p.fast > p.slow {
      assert first == ListIndex(n - p.fast + 1, p.slow - p.fast);
    }
    if AllPaired(p, n) && p.fast > p.slow {
      assert first.Some?;
    }
  }

  /** A fast period of 26 over a slow one of 12: with 38 prices the first pair runs off the list; with 40 the slow
      average after 12 prices is paired with the fast one after 27. */
  lemma LongFastPeriod()
    ensures
      var p := Periods(26, 12, 9);
      && p.Usable() && p.Enough(38) && PairedWith(p, 38, 0) == None && !AllPaired(p, 38)
      && p.Enough(40) && AllPaired(p, 40) && PairedWith(p, 40, 0) == Some(1) && p.fast + 1 == 27
  {
  }

  /** With a fast period that is not the longer one: the line is the fast average of all prices less the slow one, the
      signal the average of the lines, and the histogram what the line exceeds it by. */
  lemma MacdIs(prices: seq<real>, p: Periods)
    requires p.Usable() && p.Enough(|prices|) && p.fast <= p.slow
    ensures AllPaired(p, |prices|)
    ensures
      var n, line := |prices|, Line(prices, p);
      && |line| == n - p.slow + 1
      && (forall i | 0 <= i < |line| ::
           line[i] == Shares(prices, 2.0 / (p.fast as real + 1.0), p.fast, p.slow + i, p.slow + i)
                      - Shares(prices, 2.0 / (p.slow as real + 1.0), p.slow, p.slow + i, p.slow + i))
      && MacdOf(prices, p).line == line[|line| - 1]
      && MacdOf(prices, p).signal ==
           Shares(line, 2.0 / (p.signal as real + 1.0), p.signal, |line|, |line|)
      && MacdOf(prices, p).histogram == MacdOf(prices, p).line - MacdOf(prices, p).signal
  {
    PairsExactly(p, |prices|);
    var line := Line(prices, p);
    forall i | 0 <= i < |line|
      ensures line[i] == Shares(prices, 2.0 / (p.fast as real + 1.0), p.fast, p.slow + i, p.slow + i)
                         - Shares(prices, 2.0 / (p.slow as real + 1.0), p.slow, p.slow + i, p.slow + i)
    {
      assert PairedWith(p, |prices|, i).Some? && p.fast + PairedWith(p, |prices|, i).value == p.slow + i;
      EmaIs(prices, p.fast, p.slow + i);
      EmaIs(prices, p.slow, p.slow + i);
      assert line[i] == LineAt(prices, p, i);
    }
    EmaIs(line, p.signal, |line|);
  }

  lemma LineMoved(scale: real, shift: real, prices: seq<real>, p: Periods)
    requires p.Usable() && p.Enough(|prices|) && AllPaired(p, |prices|)
    ensures Line(Moved(scale, shift, prices), p) == Moved(scale, 0.0, Line(prices, p))
  {
    forall i | 0 <= i < |prices| - p.slow + 1
      ensures Line(Moved(scale, shift, prices), p)[i] == Affine(scale, 0.0, Line(prices, p)[i]) {
      LineAtMoved(scale, shift, prices, p, i);
    }
  }

  lemma LineAtMoved(scale: real, shift: real, prices: seq<real>, p: Periods, i: nat)
    requires p.Usable() && p.Enough(|prices|) && i < |prices| - p.slow + 1 && PairedWith(p, |prices|, i).Some?
    ensures LineAt(Moved(scale, shift, prices), p, i) == Affine(scale, 0.0, LineAt(prices, p, i))
  {
    var j := PairedWith(p, |prices|, i).value;
    EmaMoved(scale, shift, prices, p.fast, p.fast + j);
    EmaMoved(scale, shift, prices, p.slow, p.slow + i);
    DifferenceMoved(scale, shift, EmaAt(prices, p.fast, p.fast + j), EmaAt(prices, p.slow, p.slow + i));
  }

  lemma DifferenceMoved(scale: real, shift: real, a: real, b: real)
    ensures Affine(scale, shift, a) - Affine(scale, shift, b) == Affine(scale, 0.0, a - b)
  {
  }

  /** The indicator does not see a shift of the prices, and scales with them. */
  lemma MacdMoved(scale: real, shift: real, prices: seq<real>, p: Periods)
    requires p.Usable() && p.Enough(|prices|) && AllPaired(p, |prices|)
    ensures
      var m, moved := MacdOf(prices, p), MacdOf(Moved(scale, shift, prices), p);
      && moved.line == Affine(scale, 0.0, m.line) && moved.signal == Affine(scale, 0.0, m.signal)
      && moved.histogram == Affine(scale, 0.0, m.histogram)
  {
    var line := Line(prices, p);
    LineMoved(scale, shift, prices, p);
    EmaMoved(scale, 0.0, line, p.signal, |line|);
    DifferenceMoved(scale, 0.0, line[|line| - 1], EmaAt(line, p.signal, |line|));
  }

  lemma MacdShiftInvariant(shift: real, prices: seq<real>, p: Periods)
    requires p.Usable() && p.Enough(|prices|) && AllPaired(p, |prices|)
    ensures MacdOf(Moved(1.0, shift, prices), p) == MacdOf(prices, p)
  {
    MacdMoved(1.0, shift, prices, p);
  }

  // ---------- RSI ----------

  function Gain(prices: seq<real>, i: nat): real
    requires i + 1 < |prices|
  {
    var d := prices[i + 1] - prices[i];
    if d > 0.0 then d else 0.0
  }

  function Loss(prices: seq<real>, i: nat): real
    requires i + 1 < |prices|
  {
    var d := prices[i + 1] - prices[i];
    if d < 0.0 then -d else 0.0
  }

  function Smooth(average: real, period: int, d: real): real
    requires period >= 1
  {
    (average * (period - 1) as real + d) / period as real
  }

  function Gains(prices: seq<real>, n: nat): seq<real>
    requires n < |prices|
  {
    seq(n, i requires 0 <= i < n => Gain(prices, i))
  }

  function Losses(prices: seq<real>, n: nat): seq<real>
    requires n < |prices|
  {
    seq(n, i requires 0 <= i < n => Loss(prices, i))
  }

  /** The smoothed gain over the first n moves. */
  function GainAt(prices: seq<real>, period: int, n: nat): real
    requires 1 <= period <= n < |prices|
  {
    if n == period then Mean(Gains(prices, period), period)
    else Smooth(GainAt(prices, period, n - 1), period, Gain(prices, n - 1))
  }

  function LossAt(prices: seq<real>, period: int, n: nat): real
    requires 1 <= period <= n < |prices|
  {
    if n == period then Mean(Losses(prices, period), period)
    else Smooth(LossAt(prices, period, n - 1), period, Loss(prices, n - 1))
  }

  function Strength(gain: real, loss: real): real
    requires gain >= 0.0 && loss >= 0.0
  {
    if loss == 0.0 then 100.0 else 100.0 - 100.0 / (1.0 + gain / loss)
  }

  method ComputeRsi(prices: seq<real>, period: int) returns (rsi: Option<real>)
    requires period >= 1
    ensures rsi.Some? <==> |prices| >= period + 1
    ensures rsi.Some? ==>
      var gain, loss := GainAt(prices, period, |prices| - 1), LossAt(prices, period, |prices| - 1);
      && gain >= 0.0 && loss >= 0.0 && rsi.value == Strength(gain, loss)
      && 0.0 <= rsi.value <= 100.0
  {
    if |prices| < period + 1 {
      return None;
    }
    var gain := Mean(Gains(prices, period), period);
    var loss := Mean(Losses(prices, period), period);
    for i := period to |prices| - 1
      invariant gain == GainAt(prices, period, i) && loss == LossAt(prices, period, i)
    {
      var d := prices[i + 1] - prices[i];
      if d > 0.0 {
        gain, loss := Smooth(gain, period, d), Smooth(loss, period, 0.0);
      } else {
        gain, loss := Smooth(gain, period, 0.0), Smooth(loss, period, -d);
      }
    }
    AveragesNonNegative(prices, period, |prices| - 1);
    StrengthExactly(gain, loss);
    if loss == 0.0 {
      return Some(100.0);
    }
    var rs := gain / loss;
    rsi := Some(100.0 - 100.0 / (1.0 + rs));
  }

  lemma {:induction false} SumNonNegative(data: seq<real>, n: nat)
    requires n <= |data| && forall i | 0 <= i < n :: data[i] >= 0.0
    ensures Sum(data, n) >= 0.0
    ensures Sum(data, n) == 0.0 <==> forall i | 0 <= i < n :: data[i] == 0.0
  {
    if n > 0 {
      SumNonNegative(data, n - 1);
    }
  }

  lemma DivideSign(total: real, period: int)
    requires period >= 1 && total >= 0.0
    ensures total / period as real >= 0.0 && (total / period as real == 0.0 <==> total == 0.0)
  {
  }

  lemma SmoothSign(average: real, period: int, d: real)
    requires period >= 1 && average >= 0.0 && d >= 0.0
    ensures Smooth(average, period, d) >= 0.0
    ensures Smooth(average, period, d) == 0.0 <==> d == 0.0 && (period == 1 || average == 0.0)
  {
    var kept := average * (period - 1) as real;
    assert kept >= 0.0;
    assert kept == 0.0 <==> period == 1 || average == 0.0;
    DivideSign(kept + d, period);
  }

  lemma {:induction false} AveragesNonNegative(prices: seq<real>, period: int, n: nat)
    requires 1 <= period <= n < |prices|
    ensures GainAt(prices, period, n) >= 0.0 && LossAt(prices, period, n) >= 0.0
  {
    if n == period {
      SumNonNegative(Gains(prices, n), n);
      SumNonNegative(Losses(prices, n), n);
      DivideSign(Sum(Gains(prices, n), n), period);
      DivideSign(Sum(Losses(prices, n), n), period);
    } else {
      AveragesNonNegative(prices, period, n - 1);
      SmoothSign(GainAt(prices, period, n - 1), period, Gain(prices, n - 1));
      SmoothSign(LossAt(prices, period, n - 1), period, Loss(prices, n - 1));
    }
  }

  /** A move is a gain or a loss, never both. */
  lemma MoveIs(prices: seq<real>, i: nat)
    requires i + 1 < |prices|
    ensures Gain(prices, i) >= 0.0 && Loss(prices, i) >= 0.0 && (Gain(prices, i) == 0.0 || Loss(prices, i) == 0.0)
    ensures Gain(prices, i) - Loss(prices, i) == prices[i + 1] - prices[i]
  {
  }

  lemma SmoothIsBlend(average: real, period: int, d: real)
    requires period >= 1
    ensures Smooth(average, period, d) == Blend(1.0 / period as real, d, average)
  {
    var m, w := period as real, 1.0 / period as real;
    assert w * m == 1.0;
    assert average * (1.0 - w) == average - average * w;
    assert (d * w + average * (1.0 - w)) * m == d * (w * m) + average * m - average * (w * m);
    QuotientIs(average * (period - 1) as real + d, m, d * w + average * (1.0 - w));
  }

  lemma PrefixMean(data: seq<real>, first: seq<real>, n: nat, m: nat)
    requires m <= n <= |data| && first == data[..n]
    ensures Sum(first, m) == Sum(data, m)
  {
    if m > 0 {
      PrefixMean(data, first, n, m - 1);
    }
  }

  lemma {:induction false} SmoothedAre(prices: seq<real>, period: int, n: nat)
    requires 1 <= period <= n < |prices|
    ensures
      var all := |prices| - 1;
      && GainAt(prices, period, n) == AverageAt(Gains(prices, all), 1.0 / period as real, period, n)
      && LossAt(prices, period, n) == AverageAt(Losses(prices, all), 1.0 / period as real, period, n)
  {
    var all := |prices| - 1;
    if n == period {
      assert Gains(prices, period) == Gains(prices, all)[..period];
      assert Losses(prices, period) == Losses(prices, all)[..period];
      PrefixMean(Gains(prices, all), Gains(prices, period), period, period);
      PrefixMean(Losses(prices, all), Losses(prices, period), period, period);
    } else {
      SmoothedAre(prices, period, n - 1);
      SmoothIsBlend(GainAt(prices, period, n - 1), period, Gain(prices, n - 1));
      SmoothIsBlend(LossAt(prices, period, n - 1), period, Loss(prices, n - 1));
    }
  }

  /** The smoothed gain and loss in closed form: the shares are those of an average with weight 1 / period. */
  lemma SmoothedIs(prices: seq<real>, period: int, n: nat)
    requires 1 <= period <= n < |prices|
    ensures
      var all, w := |prices| - 1, 1.0 / period as real;
      && GainAt(prices, period, n) == Shares(Gains(prices, all), w, period, n, n)
      && LossAt(prices, period, n) == Shares(Losses(prices, all), w, period, n, n)
  {
    SmoothedAre(prices, period, n);
    AverageIs(Gains(prices, |prices| - 1), 1.0 / period as real, period, n);
    AverageIs(Losses(prices, |prices| - 1), 1.0 / period as real, period, n);
  }

  /** The strength is the gain's share of all movement, 100 when nothing was lost. */
  lemma StrengthExactly(gain: real, loss: real)
    requires gain >= 0.0 && loss >= 0.0
    ensures 0.0 <= Strength(gain, loss) <= 100.0
    ensures gain + loss > 0.0 ==> Strength(gain, loss) == 100.0 * (gain / (gain + loss))
    ensures Strength(gain, loss) == 0.0 <==> gain == 0.0 && loss > 0.0
    ensures Strength(gain, loss) == 100.0 <==> loss == 0.0
  {
    if loss > 0.0 {
      var ratio := 1.0 + gain / loss;
      var total := gain + loss;
      assert ratio * loss == total by {
        assert gain / loss * loss == gain;
      }
      ProductPositive(ratio, loss);
      var share, lost := gain / total, loss / total;
      assert share * total == gain && lost * total == loss;
      Reciprocal(lost, ratio, loss);
      QuotientIs(100.0, ratio, 100.0 * lost);
      QuotientIs(gain, total, 1.0 - lost);
      ShareWithin(gain, total);
    } else if gain > 0.0 {
      QuotientIs(gain, gain, 1.0);
    }
  }

  lemma Reciprocal(x: real, ratio: real, loss: real)
    requires loss > 0.0 && x * (ratio * loss) == loss
    ensures x * ratio == 1.0
  {
    assert (x * ratio) * loss == loss;
    QuotientIs(loss, loss, x * ratio);
    QuotientIs(loss, loss, 1.0);
  }

  lemma ShareWithin(part: real, total: real)
    requires 0.0 <= part < total
    ensures 0.0 <= part / total < 1.0 && (part / total == 0.0 <==> part == 0.0)
  {
    QuotientOrder(part, total, 0.0);
    QuotientOrder(part, total, 1.0);
    assert part / total * total == part;
  }

  // ---------- how the strength moves with the prices ----------

  lemma MovedGain(scale: real, shift: real, prices: seq<real>, i: nat)
    requires i + 1 < |prices|
    ensures
      var moved := Moved(scale, shift, prices);
      var size := if scale > 0.0 then scale else -scale;
      && Gain(moved, i) == Affine(size, 0.0, if scale > 0.0 then Gain(prices, i) else Loss(prices, i))
      && Loss(moved, i) == Affine(size, 0.0, if scale > 0.0 then Loss(prices, i) else Gain(prices, i))
  {
    var d := prices[i + 1] - prices[i];
    var moved := Moved(scale, shift, prices);
    DifferenceMoved(scale, shift, prices[i + 1], prices[i]);
    assert moved[i + 1] - moved[i] == scale * d;
    ProductSigns(scale, d);
  }

  lemma ProductSigns(a: real, b: real)
    ensures a > 0.0 ==> (a * b > 0.0 <==> b > 0.0) && (a * b < 0.0 <==> b < 0.0)
    ensures a < 0.0 ==> (a * b > 0.0 <==> b < 0.0) && (a * b < 0.0 <==> b > 0.0)
  {
    if a > 0.0 {
      ProductPositive(b, a);
      ProductPositive(-b, a);
    } else if a < 0.0 {
      ProductPositive(b, -a);
      ProductPositive(-b, -a);
    }
  }

  lemma SmoothMoved(scale: real, average: real, period: int, d: real)
    requires period >= 1
    ensures Smooth(Affine(scale, 0.0, average), period, Affine(scale, 0.0, d)) ==
            Affine(scale, 0.0, Smooth(average, period, d))
  {
    var m, kept, s := period as real, average * (period - 1) as real, Smooth(average, period, d);
    assert s * m == kept + d;
    assert Affine(scale, 0.0, average) * (period - 1) as real == scale * kept;
    assert scale * kept + scale * d == scale * (kept + d) == (scale * s) * m;
    QuotientIs(scale * kept + scale * d, m, scale * s);
  }

  /** A positive scale scales both averages; a negative one also swaps them. */
  lemma {:induction false} AveragesMoved(scale: real, shift: real, prices: seq<real>, period: int, n: nat)
    requires 1 <= period <= n < |prices|
    ensures
      var moved, size := Moved(scale, shift, prices), if scale > 0.0 then scale else -scale;
      var gain, loss := GainAt(prices, period, n), LossAt(prices, period, n);
      && GainAt(moved, period, n) == Affine(size, 0.0, if scale > 0.0 then gain else loss)
      && LossAt(moved, period, n) == Affine(size, 0.0, if scale > 0.0 then loss else gain)
  {
    var moved, size := Moved(scale, shift, prices), if scale > 0.0 then scale else -scale;
    if n == period {
      var gains, losses := Gains(prices, n), Losses(prices, n);
      forall i | 0 <= i < n
        ensures Gains(moved, n)[i] == Affine(size, 0.0, if scale > 0.0 then gains[i] else losses[i])
        ensures Losses(moved, n)[i] == Affine(size, 0.0, if scale > 0.0 then losses[i] else gains[i])
      {
        MovedGain(scale, shift, prices, i);
      }
      assert Gains(moved, n) == Moved(size, 0.0, if scale > 0.0 then gains else losses);
      assert Losses(moved, n) == Moved(size, 0.0, if scale > 0.0 then losses else gains);
      MeanMoved(size, 0.0, gains, n);
      MeanMoved(size, 0.0, losses, n);
    } else {
      AveragesMoved(scale, shift, prices, period, n - 1);
      MovedGain(scale, shift, prices, n - 1);
      SmoothMoved(size, GainAt(prices, period, n - 1), period, Gain(prices, n - 1));
      SmoothMoved(size, LossAt(prices, period, n - 1), period, Loss(prices, n - 1));
    }
  }

  lemma StrengthScaled(scale: real, gain: real, loss: real)
    requires scale > 0.0 && gain >= 0.0 && loss >= 0.0
    ensures Affine(scale, 0.0, gain) >= 0.0 && Affine(scale, 0.0, loss) >= 0.0
    ensures Strength(Affine(scale, 0.0, gain), Affine(scale, 0.0, loss)) == Strength(gain, loss)
  {
    ProductNonNegative(scale, gain);
    ProductNonNegative(scale, loss);
    ProductPositive(loss, scale);
    if loss > 0.0 {
      var rs := gain / loss;
      assert rs * loss == gain;
      assert rs * (scale * loss) == scale * gain;
      QuotientIs(scale * gain, scale * loss, rs);
    }
  }

  lemma StrengthSwapped(gain: real, loss: real)
    requires gain >= 0.0 && loss >= 0.0
    ensures Strength(loss, gain) == 100.0 - Strength(gain, loss) <==> gain + loss > 0.0
  {
    StrengthExactly(gain, loss);
    StrengthExactly(loss, gain);
    if gain + loss > 0.0 {
      var total := gain + loss;
      var share, lost := gain / total, loss / total;
      assert share * total == gain && lost * total == loss;
      QuotientIs(gain, total, 1.0 - lost);
    }
  }

  function RsiOf(prices: seq<real>, period: int): real
    requires 1 <= period < |prices|
  {
    AveragesNonNegative(prices, period, |prices| - 1);
    Strength(GainAt(prices, period, |prices| - 1), LossAt(prices, period, |prices| - 1))
  }

  /** Nothing moved that the smoothing remembers: with a period of 1 it remembers only the last move. */
  predicate Still(prices: seq<real>, period: int, n: nat)
    requires 1 <= period <= n < |prices|
  {
    if period == 1 then prices[n] == prices[n - 1] else forall i | 0 <= i < n :: prices[i + 1] == prices[i]
  }

  lemma StillFirst(prices: seq<real>, n: nat)
    requires 1 <= n < |prices|
    ensures GainAt(prices, n, n) + LossAt(prices, n, n) == 0.0 <==> forall i | 0 <= i < n :: prices[i + 1] == prices[i]
  {
    var gains, losses := Gains(prices, n), Losses(prices, n);
    SumNonNegative(gains, n);
    SumNonNegative(losses, n);
    DivideSign(Sum(gains, n), n);
    DivideSign(Sum(losses, n), n);
    assert forall i | 0 <= i < n :: gains[i] == 0.0 && losses[i] == 0.0 <==> prices[i + 1] == prices[i];
    if forall i | 0 <= i < n :: prices[i + 1] == prices[i] {
      assert forall i | 0 <= i < n :: gains[i] == 0.0 && losses[i] == 0.0;
    } else {
      var i :| 0 <= i < n && prices[i + 1] != prices[i];
      assert gains[i] != 0.0 || losses[i] != 0.0;
    }
  }

  lemma {:induction false} StillExactly(prices: seq<real>, period: int, n: nat)
    requires 1 <= period <= n < |prices|
    ensures GainAt(prices, period, n) + LossAt(prices, period, n) == 0.0 <==> Still(prices, period, n)
  {
    if n == period {
      StillFirst(prices, n);
    } else {
      StillExactly(prices, period, n - 1);
      AveragesNonNegative(prices, period, n - 1);
      SmoothSign(GainAt(prices, period, n - 1), period, Gain(prices, n - 1));
      SmoothSign(LossAt(prices, period, n - 1), period, Loss(prices, n - 1));
    }
  }

  /** The strength is the same after any shift and positive scaling. */
  lemma RsiMoved(scale: real, shift: real, prices: seq<real>, period: int)
    requires 1 <= period < |prices| && scale > 0.0
    ensures RsiOf(Moved(scale, shift, prices), period) == RsiOf(prices, period)
  {
    var n := |prices| - 1;
    AveragesMoved(scale, shift, prices, period, n);
    AveragesNonNegative(prices, period, n);
    StrengthScaled(scale, GainAt(prices, period, n), LossAt(prices, period, n));
  }

  /** Prices turned upside down have the complementary strength, exactly unless nothing moved. */
  lemma RsiMirrored(shift: real, prices: seq<real>, period: int)
    requires 1 <= period < |prices|
    ensures RsiOf(Moved(-1.0, shift, prices), period) == 100.0 - RsiOf(prices, period)
            <==> !Still(prices, period, |prices| - 1)
  {
    var n := |prices| - 1;
    AveragesMoved(-1.0, shift, prices, period, n);
    AveragesNonNegative(prices, period, n);
    StrengthSwapped(GainAt(prices, period, n), LossAt(prices, period, n));
    StillExactly(prices, period, n);
  }

  /** Prices that stand still have strength 100 either way up. */
  lemma StillPricesHaveNoMirror()
    ensures RsiOf([5.0, 5.0], 1) == 100.0 && RsiOf(Moved(-1.0, 10.0, [5.0, 5.0]), 1) == 100.0
  {
    var prices := [5.0, 5.0];
    assert Still(prices, 1, 1);
    StillExactly(prices, 1, 1);
    AveragesNonNegative(prices, 1, 1);
    AveragesMoved(-1.0, 10.0, prices, 1, 1);
  }

  // ---------- the direction ----------

  datatype Limits = Limits(rsiUpMin: int, rsiUpper: int, rsiLower: int, rsiDownMax: int)
  {
    /** The limits for DOWN are those for UP reflected at 50, as the defaults are. */
    predicate Symmetric() {
      rsiDownMax == 100 - rsiUpMin && rsiLower == 100 - rsiUpper
    }
  }

  predicate PointsTo(side: Side, m: Macd, rsi: real, limits: Limits) {
    match side
    case Up => m.histogram > 0.0 && m.line > m.signal && limits.rsiUpMin as real <= rsi <= limits.rsiUpper as real
    case Down => m.histogram < 0.0 && m.line < m.signal && limits.rsiLower as real <= rsi <= limits.rsiDownMax as real
  }

  datatype Book = Book(mid: Option<real>, vwap: Option<real>)

  datatype Filters = Filters(maxTokenPrice: real, deviation: real, alreadyIn: bool)

  predicate BookAllows(side: Side, book: Book, f: Filters) {
    && book.mid.Some? && book.mid.value <= f.maxTokenPrice
    && book.vwap.Some? && book.vwap.value > 0.0
    && (if side.Up? then book.mid.value > book.vwap.value * (1.0 + f.deviation)
         else book.mid.value < book.vwap.value * (1.0 - f.deviation))
    && !f.alreadyIn
  }

  method Evaluate(prices: seq<real>, p: Periods, rsiPeriod: int, limits: Limits, books: Side -> Book, f: Filters)
    returns (sides: Option<seq<Side>>)
    requires p.Usable() && rsiPeriod >= 1
    ensures sides.None? <==> |prices| >= p.slow + p.signal && |prices| >= p.fast && !AllPaired(p, |prices|)
    ensures sides.Some? ==> |sides.value| <= 1
    ensures sides.Some? ==>
      (Up in sides.value <==>
         && |prices| >= p.slow + p.signal && |prices| >= p.fast && |prices| > rsiPeriod && !f.alreadyIn
         && MacdOf(prices, p).line > MacdOf(prices, p).signal && MacdOf(prices, p).histogram > 0.0
         && limits.rsiUpMin as real <= RsiOf(prices, rsiPeriod) <= limits.rsiUpper as real
         && books(Up).mid.Some? && books(Up).vwap.Some? && books(Up).vwap.value > 0.0
         && books(Up).vwap.value * (1.0 + f.deviation) < books(Up).mid.value <= f.maxTokenPrice)
    ensures sides.Some? ==>
      (Down in sides.value <==>
         && |prices| >= p.slow + p.signal && |prices| >= p.fast && |prices| > rsiPeriod && !f.alreadyIn
         && MacdOf(prices, p).line < MacdOf(prices, p).signal && MacdOf(prices, p).histogram < 0.0
         && limits.rsiLower as real <= RsiOf(prices, rsiPeriod) <= limits.rsiDownMax as real
         && books(Down).mid.Some? && books(Down).vwap.Some? && books(Down).vwap.value > 0.0
         && books(Down).mid.value < books(Down).vwap.value * (1.0 - f.deviation)
         && books(Down).mid.value <= f.maxTokenPrice)
  {
    if |prices| < p.slow {
      return Some([]);
    }
    var macd := ComputeMacd(prices, p);
    if macd == NotEnough {
      return Some([]);
    }
    if macd == IndexError {
      return None;
    }
    var rsi := ComputeRsi(prices, rsiPeriod);
    if rsi.None? {
      return Some([]);
    }
    var chosen: seq<Side> := [];
    if PointsTo(Up, macd.macd, rsi.value, limits) && BookAllows(Up, books(Up), f) {
      chosen := chosen + [Up];
    }
    if PointsTo(Down, macd.macd, rsi.value, limits) && BookAllows(Down, books(Down), f) {
      chosen := chosen + [Down];
    }
    sides := Some(chosen);
  }

  /** The direction depends on the shape of the prices only: no shift and no positive scaling changes it. */
  lemma DirectionMoved(scale: real, shift: real, prices: seq<real>, p: Periods, rsiPeriod: int, side: Side,
                       limits: Limits)
    requires p.Usable() && p.Enough(|prices|) && AllPaired(p, |prices|) && 1 <= rsiPeriod < |prices| && scale > 0.0
    ensures
      var moved := Moved(scale, shift, prices);
      PointsTo(side, MacdOf(moved, p), RsiOf(moved, rsiPeriod), limits) ==
        PointsTo(side, MacdOf(prices, p), RsiOf(prices, rsiPeriod), limits)
  {
    var m := MacdOf(prices, p);
    MacdMoved(scale, shift, prices, p);
    RsiMoved(scale, shift, prices, rsiPeriod);
    ProductSigns(scale, m.histogram);
    assert m.histogram == m.line - m.signal;
  }

  lemma StillMeansFlat(prices: seq<real>, period: int, i: nat)
    requires 2 <= period < |prices| && Still(prices, period, |prices| - 1) && i < |prices|
    ensures prices[i] == prices[0]
  {
    if i > 0 {
      StillMeansFlat(prices, period, i - 1);
      assert prices[i - 1 + 1] == prices[i - 1];
    }
  }

  lemma FlatHasNoHistogram(prices: seq<real>, p: Periods)
    requires p.Usable() && p.Enough(|prices|) && AllPaired(p, |prices|)
    requires forall i | 0 <= i < |prices| :: prices[i] == prices[0]
    ensures MacdOf(prices, p) == Macd(0.0, 0.0, 0.0)
  {
    var line := Line(prices, p);
    forall i | 0 <= i < |line| ensures line[i] == 0.0 {
      EmaWithin(prices, p.fast, p.fast + PairedWith(p, |prices|, i).value, prices[0], prices[0]);
      EmaWithin(prices, p.slow, p.slow + i, prices[0], prices[0]);
    }
    EmaWithin(line, p.signal, |line|, 0.0, 0.0);
  }

  /** Upside-down prices point the other way, when the limits are symmetric and the strength looks at more than one
      move. */
  lemma MirrorSwapsDirections(shift: real, prices: seq<real>, p: Periods, rsiPeriod: int, limits: Limits)
    requires p.Usable() && p.Enough(|prices|) && AllPaired(p, |prices|) && 2 <= rsiPeriod < |prices|
    requires limits.Symmetric()
    ensures
      var mirrored := Moved(-1.0, shift, prices);
      && PointsTo(Down, MacdOf(mirrored, p), RsiOf(mirrored, rsiPeriod), limits) ==
           PointsTo(Up, MacdOf(prices, p), RsiOf(prices, rsiPeriod), limits)
      && PointsTo(Up, MacdOf(mirrored, p), RsiOf(mirrored, rsiPeriod), limits) ==
           PointsTo(Down, MacdOf(prices, p), RsiOf(prices, rsiPeriod), limits)
  {
    MacdMoved(-1.0, shift, prices, p);
    if Still(prices, rsiPeriod, |prices| - 1) {
      forall i | 0 <= i < |prices| ensures prices[i] == prices[0] {
        StillMeansFlat(prices, rsiPeriod, i);
      }
      FlatHasNoHistogram(prices, p);
    } else {
      RsiMirrored(shift, prices, rsiPeriod);
    }
  }
}

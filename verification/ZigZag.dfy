/** The percentage swing detector and the retracement levels drawn from its latest swing. */
module ZigZag {
  import opened Options
  import opened Reals

  const PRICE_WINDOW: nat := 200
  const SWING_WINDOW: nat := 10

  // ---------- the detector's state and transitions ----------

  datatype State = State(
    threshold: real, prices: seq<real>, swingHighs: seq<real>, swingLows: seq<real>,
    up: Option<bool>, extreme: Option<real>)

  function Initial(threshold: real): State {
    State(threshold, [], [], [], None, None)
  }

  /** The last `limit` elements: what a bounded deque keeps. */
  function Newest(limit: nat, xs: seq<real>): seq<real> {
    if |xs| <= limit then xs else xs[|xs| - limit..]
  }

  function Abs(x: real): real {
    if x < 0.0 then -x else x
  }

  function Turned(s: State, up: bool, extreme: real, price: real): State {
    if extreme <= 0.0 || Abs(price - extreme) / extreme < s.threshold then s
    else if s.up == Some(true) then
      s.(swingHighs := Newest(SWING_WINDOW, s.swingHighs + [extreme]), up := Some(up), extreme := Some(price))
    else s.(swingLows := Newest(SWING_WINDOW, s.swingLows + [extreme]), up := Some(up), extreme := Some(price))
  }

  function Pushed(before: State, price: real): State {
    var s := before.(prices := Newest(PRICE_WINDOW, before.prices + [price]));
    var n := |s.prices|;
    if n < 2 then s
    else if n == 2 then s.(up := Some(price > s.prices[0]), extreme := Some(price))
    else if price == s.prices[n - 2] then s
    else if s.extreme.None? then s.(extreme := Some(price))
    else
      var up, extreme := price > s.prices[n - 2], s.extreme.value;
      if s.up == Some(up) then
        if (if up then price > extreme else price < extreme) then s.(extreme := Some(price)) else s
      else Turned(s, up, extreme, price)
  }

  function Finalized(s: State): State {
    if s.up.None? || s.extreme.None? then s
    else if s.up.value then
      if s.swingHighs == [] || s.swingHighs[|s.swingHighs| - 1] != s.extreme.value
      then s.(swingHighs := Newest(SWING_WINDOW, s.swingHighs + [s.extreme.value])) else s
    else
      if s.swingLows == [] || s.swingLows[|s.swingLows| - 1] != s.extreme.value
      then s.(swingLows := Newest(SWING_WINDOW, s.swingLows + [s.extreme.value])) else s
  }

  function Latest(swings: seq<real>): Option<real> {
    if swings == [] then None else Some(swings[|swings| - 1])
  }

  /** What the saved record holds; loading rebuilds the bounded deques from its lists. */
  datatype Record = Record(
    threshold: real, prices: seq<real>, swingHighs: seq<real>, swingLows: seq<real>,
    up: Option<bool>, extreme: Option<real>)

  function Save(s: State): Record {
    Record(s.threshold, s.prices, s.swingHighs, s.swingLows, s.up, s.extreme)
  }

  function Load(r: Record): State {
    State(r.threshold, Newest(PRICE_WINDOW, r.prices), Newest(SWING_WINDOW, r.swingHighs),
          Newest(SWING_WINDOW, r.swingLows), r.up, r.extreme)
  }

  // ---------- swings of a whole price history ----------

  /** A leg runs one way from the price at `start` until the next leg starts; its peak is the furthest price it
      reached. */
  datatype Leg = Leg(up: bool, start: nat, peak: real)

  function Further(up: bool, a: real, b: real): real {
    if up then (if b > a then b else a) else (if b < a then b else a)
  }

  /** The move away from a price that counts as a swing. */
  function Margin(threshold: real, price: real): real {
    threshold * price
  }

  /** The price has come back from the peak by the threshold fraction of it. */
  predicate Reverses(threshold: real, leg: Leg, price: real) {
    if leg.up then price < leg.peak && leg.peak - price >= Margin(threshold, leg.peak)
    else price > leg.peak && price - leg.peak >= Margin(threshold, leg.peak)
  }

  /** The n-th price either reverses the running leg and starts the next one, or belongs to the running leg. */
  function Extended(threshold: real, legs: seq<Leg>, n: nat, price: real): (r: seq<Leg>)
    requires legs != []
    ensures r != []
  {
    var k := |legs| - 1;
    if Reverses(threshold, legs[k], price) then legs + [Leg(!legs[k].up, n, price)]
    else legs[k := legs[k].(peak := Further(legs[k].up, legs[k].peak, price))]
  }

  function Legs(threshold: real, h: seq<real>): (legs: seq<Leg>)
    requires |h| >= 2
    ensures legs != []
  {
    var n := |h|;
    if n == 2 then [Leg(h[1] > h[0], 1, h[1])] else Extended(threshold, Legs(threshold, h[..n - 1]), n - 1, h[n - 1])
  }

  function Running(threshold: real, h: seq<real>): Leg
    requires |h| >= 2
  {
    var legs := Legs(threshold, h);
    legs[|legs| - 1]
  }

  /** The history has reversed at least once. */
  predicate HasReversed(threshold: real, h: seq<real>) {
    |h| >= 2 && |Legs(threshold, h)| > 1
  }

  /** The latest leg going the given way, if there has been one: the running leg or the one before it. */
  function LatestLeg(threshold: real, h: seq<real>, up: bool): Option<Leg> {
    if |h| >= 2 && Running(threshold, h).up == up then Some(Running(threshold, h))
    else if HasReversed(threshold, h) then
      var legs := Legs(threshold, h);
      Some(legs[|legs| - 2])
    else None
  }

  function LatestPeak(threshold: real, h: seq<real>, up: bool): Option<real> {
    var leg := LatestLeg(threshold, h, up);
    if leg.Some? then Some(leg.value.peak) else None
  }

  lemma LegsAppend(threshold: real, h: seq<real>, p: real)
    requires |h| >= 2
    ensures Legs(threshold, h + [p]) == Extended(threshold, Legs(threshold, h), |h|, p)
  {
    assert (h + [p])[..|h|] == h;
  }

  /** The peak is the highest, or lowest, price between the leg's start and `end`. */
  ghost predicate Covers(leg: Leg, h: seq<real>, end: int) {
    && 1 <= leg.start < end <= |h|
    && (exists j :: leg.start <= j < end && h[j] == leg.peak)
    && (forall j | leg.start <= j < end :: if leg.up then h[j] <= leg.peak else h[j] >= leg.peak)
  }

  /** The legs alternate and tile the history; each reached its peak, and starts where it reversed the leg before it. */
  ghost predicate Tiles(threshold: real, legs: seq<Leg>, h: seq<real>) {
    && legs != []
    && Covers(legs[|legs| - 1], h, |h|)
    && !Reverses(threshold, legs[|legs| - 1], h[|h| - 1])
    && forall k | 0 < k < |legs| :: Joins(threshold, legs[k - 1], legs[k], h)
  }

  ghost predicate Joins(threshold: real, leg: Leg, next: Leg, h: seq<real>) {
    Covers(leg, h, next.start) && next.start < |h| && next.up == !leg.up && Reverses(threshold, leg, h[next.start])
  }

  lemma CoversAppend(leg: Leg, h: seq<real>, end: int, p: real)
    requires Covers(leg, h, end)
    ensures Covers(leg, h + [p], end)
    ensures end == |h| ==> Covers(leg.(peak := Further(leg.up, leg.peak, p)), h + [p], |h| + 1)
  {
    var h' := h + [p];
    assert forall j | 0 <= j < |h| :: h'[j] == h[j];
    assert h'[|h|] == p;
    var j :| leg.start <= j < end && h[j] == leg.peak;
    assert h'[j] == leg.peak;
  }

  lemma JoinsAppend(threshold: real, leg: Leg, next: Leg, h: seq<real>, p: real)
    requires Joins(threshold, leg, next, h)
    ensures Joins(threshold, leg, next, h + [p])
  {
    CoversAppend(leg, h, next.start, p);
    assert (h + [p])[next.start] == h[next.start];
  }

  lemma JoinsNew(threshold: real, leg: Leg, h: seq<real>, p: real)
    requires Covers(leg, h, |h|) && Reverses(threshold, leg, p)
    ensures
      var next := Leg(!leg.up, |h|, p);
      Joins(threshold, leg, next, h + [p]) && Covers(next, h + [p], |h| + 1) && !Reverses(threshold, next, p)
  {
    CoversAppend(leg, h, |h|, p);
    assert (h + [p])[|h|] == p;
  }

  lemma ExtendedTiles(threshold: real, legs: seq<Leg>, h: seq<real>, p: real)
    requires Tiles(threshold, legs, h)
    ensures Tiles(threshold, Extended(threshold, legs, |h|, p), h + [p])
  {
    var legs', last := Extended(threshold, legs, |h|, p), legs[|legs| - 1];
    forall k | 0 < k < |legs| ensures Joins(threshold, legs[k - 1], legs[k], h + [p]) {
      JoinsAppend(threshold, legs[k - 1], legs[k], h, p);
    }
    if Reverses(threshold, last, p) {
      JoinsNew(threshold, last, h, p);
      assert legs' == legs + [Leg(!last.up, |h|, p)];
    } else {
      CoversAppend(last, h, |h|, p);
      var longer := last.(peak := Further(last.up, last.peak, p));
      assert legs' == legs[..|legs| - 1] + [longer];
      if |legs| > 1 {
        JoinsLonger(threshold, legs[|legs| - 2], last, longer, h + [p]);
      }
    }
  }

  lemma JoinsLonger(threshold: real, leg: Leg, next: Leg, longer: Leg, h: seq<real>)
    requires Joins(threshold, leg, next, h) && longer.start == next.start && longer.up == next.up
    ensures Joins(threshold, leg, longer, h)
  {
  }

  lemma {:induction false} LegsTile(threshold: real, h: seq<real>)
    requires |h| >= 2
    ensures Tiles(threshold, Legs(threshold, h), h)
  {
    var n := |h|;
    if n > 2 {
      LegsTile(threshold, h[..n - 1]);
      ExtendedTiles(threshold, Legs(threshold, h[..n - 1]), h[..n - 1], h[n - 1]);
      assert h == h[..n - 1] + [h[n - 1]];
    }
  }

  /** Whenever both swings exist, the last high exceeds the last low, by the threshold fraction of the swing the
      running leg left. */
  lemma SwingGap(threshold: real, h: seq<real>)
    ensures HasReversed(threshold, h) <==> LatestPeak(threshold, h, true).Some? && LatestPeak(threshold, h, false).Some?
    ensures HasReversed(threshold, h) ==>
      var high, low := LatestPeak(threshold, h, true).value, LatestPeak(threshold, h, false).value;
      low < high && high - low >= threshold * (if Running(threshold, h).up then low else high)
  {
    if HasReversed(threshold, h) {
      LegsTile(threshold, h);
      var legs := Legs(threshold, h);
      var n := |legs|;
      assert Joins(threshold, legs[n - 2], legs[n - 1], h);
    }
  }

  /** A move of exactly the threshold turns the direction, a smaller one does not. */
  lemma ThresholdTurns(threshold: real)
    requires 0.0 < threshold < 1.0
    ensures HasReversed(threshold, [50.0, 100.0, 100.0 - 100.0 * threshold])
    ensures !HasReversed(2.0 * threshold, [50.0, 100.0, 100.0 - 100.0 * threshold])
  {
    var h := [50.0, 100.0, 100.0 - 100.0 * threshold];
    assert h[..2] == [50.0, 100.0];
    assert Legs(threshold, h[..2]) == [Leg(true, 1, 100.0)] && Legs(2.0 * threshold, h[..2]) == [Leg(true, 1, 100.0)];
  }

  // ---------- the detector reads the history ----------

  ghost predicate Positive(h: seq<real>) {
    forall p | p in h :: p > 0.0
  }

  /** After a history, each price pushed and finalized, the detector's direction, extreme and latest swings are those
      of the legs, however much of the history its deques have dropped. */
  ghost predicate Reads(s: State, h: seq<real>) {
    && s.prices == Newest(PRICE_WINDOW, h) && |s.swingHighs| <= SWING_WINDOW && |s.swingLows| <= SWING_WINDOW
    && Latest(s.swingHighs) == LatestPeak(s.threshold, h, true)
    && Latest(s.swingLows) == LatestPeak(s.threshold, h, false)
    && if |h| < 2 then s.up.None? && s.extreme.None?
       else s.up == Some(Running(s.threshold, h).up) && s.extreme == Some(Running(s.threshold, h).peak)
  }

  lemma PercentTest(extreme: real, price: real, threshold: real)
    requires extreme > 0.0
    ensures Abs(price - extreme) / extreme >= threshold <==> Abs(price - extreme) >= Margin(threshold, extreme)
  {
    QuotientOrder(Abs(price - extreme), extreme, threshold);
  }

  lemma NewestAppend(limit: nat, h: seq<real>, p: real)
    requires limit > 0
    ensures Newest(limit, Newest(limit, h) + [p]) == Newest(limit, h + [p])
  {
  }

  /** What a third or later price does to the detector, in terms of the running leg. */
  lemma PushedMeans(s: State, h: seq<real>, p: real)
    requires Reads(s, h) && Positive(h) && |h| >= 2
    ensures
      var leg, t := Running(s.threshold, h), s.(prices := Newest(PRICE_WINDOW, h + [p]));
      Pushed(s, p) ==
        if !Reverses(s.threshold, leg, p) then t.(extreme := Some(Further(leg.up, leg.peak, p)))
        else if leg.up then t.(swingHighs := Newest(SWING_WINDOW, s.swingHighs + [leg.peak]), up := Some(false),
          extreme := Some(p))
        else t.(swingLows := Newest(SWING_WINDOW, s.swingLows + [leg.peak]), up := Some(true), extreme := Some(p))
  {
    NewestAppend(PRICE_WINDOW, h, p);
    var prices := Newest(PRICE_WINDOW, h + [p]);
    assert prices[|prices| - 2] == h[|h| - 1] && prices[|prices| - 1] == p;
    LegsTile(s.threshold, h);
    var leg := Running(s.threshold, h);
    var j :| leg.start <= j < |h| && h[j] == leg.peak;
    assert h[j] in h;
    PercentTest(leg.peak, p, s.threshold);
  }

  lemma FinalizedMeans(s: State)
    requires s.up.Some? && s.extreme.Some? && |s.swingHighs| <= SWING_WINDOW && |s.swingLows| <= SWING_WINDOW
    ensures
      var f := Finalized(s);
      && f == s.(swingHighs := f.swingHighs, swingLows := f.swingLows)
      && |f.swingHighs| <= SWING_WINDOW && |f.swingLows| <= SWING_WINDOW
      && Latest(f.swingHighs) == (if s.up.value then s.extreme else Latest(s.swingHighs))
      && Latest(f.swingLows) == (if s.up.value then Latest(s.swingLows) else s.extreme)
  {
  }

  lemma LatestNewest(swings: seq<real>, p: real)
    ensures Latest(Newest(SWING_WINDOW, swings + [p])) == Some(p)
    ensures |Newest(SWING_WINDOW, swings + [p])| <= SWING_WINDOW
  {
  }

  lemma LatestAppend(threshold: real, h: seq<real>, p: real)
    requires |h| >= 2
    ensures
      var leg, h' := Running(threshold, h), h + [p];
      if Reverses(threshold, leg, p) then
        && Running(threshold, h').up == !leg.up && Running(threshold, h').peak == p
        && LatestPeak(threshold, h', leg.up) == Some(leg.peak) && LatestPeak(threshold, h', !leg.up) == Some(p)
      else
        var peak := Further(leg.up, leg.peak, p);
        && Running(threshold, h').up == leg.up && Running(threshold, h').peak == peak
        && LatestPeak(threshold, h', leg.up) == Some(peak)
        && LatestPeak(threshold, h', !leg.up) == LatestPeak(threshold, h, !leg.up)
  {
    LegsAppend(threshold, h, p);
    LegsTile(threshold, h);
    var legs := Legs(threshold, h);
    var n := |legs|;
    assert n > 1 ==> Joins(threshold, legs[n - 2], legs[n - 1], h);
  }

  lemma FirstPair(threshold: real, h: seq<real>, p: real)
    requires |h| == 1
    ensures
      var h' := h + [p];
      && Running(threshold, h') == Leg(p > h[0], 1, p)
      && LatestPeak(threshold, h', p > h[0]) == Some(p) && LatestPeak(threshold, h', p <= h[0]) == None
  {
  }

  lemma PushedReads(s: State, h: seq<real>, p: real)
    requires Reads(s, h) && Positive(h) && p > 0.0
    ensures Reads(Finalized(Pushed(s, p)), h + [p])
  {
    NewestAppend(PRICE_WINDOW, h, p);
    if |h| >= 2 {
      PushedMeans(s, h, p);
      LatestAppend(s.threshold, h, p);
      LatestNewest(s.swingHighs, Running(s.threshold, h).peak);
      LatestNewest(s.swingLows, Running(s.threshold, h).peak);
      FinalizedMeans(Pushed(s, p));
      assert LatestPeak(s.threshold, h, Running(s.threshold, h).up) == Some(Running(s.threshold, h).peak);
    } else if |h| == 1 {
      FirstPair(s.threshold, h, p);
      FinalizedMeans(Pushed(s, p));
    }
  }

  /** Finalizing once more changes nothing: the extreme is not entered twice. */
  lemma FinalizedTwice(s: State)
    requires |s.swingHighs| <= SWING_WINDOW && |s.swingLows| <= SWING_WINDOW
    ensures Finalized(Finalized(s)) == Finalized(s)
  {
  }

  /** The newest ten of a longer list. */
  ghost predicate KeepsTen(before: seq<real>, extra: seq<real>, after: seq<real>) {
    var all := before + extra;
    |extra| <= 2 && after == if |all| <= 10 then all else all[|all| - 10..]
  }

  lemma NewestTwice(before: seq<real>, p: real, q: real)
    ensures Newest(10, Newest(10, before + [p]) + [q]) == Newest(10, before + [p, q])
  {
    assert before + [p] + [q] == before + [p, q];
  }

  /** The list is as it was, or the value was entered at its end. */
  predicate MayEnter(before: seq<real>, value: Option<real>, after: seq<real>) {
    after == before || (value.Some? && after == Newest(10, before + [value.value]))
  }

  lemma StepsEnter(s: State, p: real)
    ensures
      var t := Pushed(s, p);
      var s' := Finalized(t);
      && MayEnter(s.swingHighs, s.extreme, t.swingHighs) && MayEnter(s.swingLows, s.extreme, t.swingLows)
      && MayEnter(t.swingHighs, s'.extreme, s'.swingHighs) && MayEnter(t.swingLows, s'.extreme, s'.swingLows)
  {
  }

  lemma EnteredTwice(before: seq<real>, x: Option<real>, between: seq<real>, y: Option<real>, after: seq<real>)
    returns (extra: seq<real>)
    requires |before| <= 10 && MayEnter(before, x, between) && MayEnter(between, y, after)
    ensures KeepsTen(before, extra, after) && forall z | z in extra :: x == Some(z) || y == Some(z)
  {
    extra := (if between != before then [x.value] else []) + (if after != between then [y.value] else []);
    if between != before && after != between {
      NewestTwice(before, x.value, y.value);
    }
    assert before + [] == before;
  }

  /** A price adds at most the extreme it turns away from and the extreme it makes, and of each list of swings only the
      oldest beyond ten are dropped. */
  lemma SwingsKept(s: State, p: real) returns (highs: seq<real>, lows: seq<real>)
    requires |s.swingHighs| <= 10 && |s.swingLows| <= 10
    ensures
      var s' := Finalized(Pushed(s, p));
      && KeepsTen(s.swingHighs, highs, s'.swingHighs) && KeepsTen(s.swingLows, lows, s'.swingLows)
      && (forall x | x in highs || x in lows :: s.extreme == Some(x) || s'.extreme == Some(x))
  {
    var t := Pushed(s, p);
    var s' := Finalized(t);
    StepsEnter(s, p);
    highs := EnteredTwice(s.swingHighs, s.extreme, t.swingHighs, s'.extreme, s'.swingHighs);
    lows := EnteredTwice(s.swingLows, s.extreme, t.swingLows, s'.extreme, s'.swingLows);
  }

  /** Outside the histories that prices make, as loading can bring about: without an extreme the next different price is
      one, and away from an extreme that is not positive nothing turns. */
  lemma PushedElsewhere(s: State, p: real)
    requires |s.prices| >= 2 && p != s.prices[|s.prices| - 1]
    ensures s.extreme.None? ==>
      Pushed(s, p) == s.(prices := Newest(200, s.prices + [p]), extreme := Some(p))
    ensures s.extreme.Some? && s.extreme.value <= 0.0 && s.up != Some(p > s.prices[|s.prices| - 1]) ==>
      Pushed(s, p) == s.(prices := Newest(200, s.prices + [p]))
  {
  }

  // ---------- retracement levels ----------

  function LevelAt(ratio: real, high: real, low: real): real {
    high - ratio * (high - low)
  }

  function RetracementLevels(ratios: seq<real>, high: real, low: real): map<real, real> {
    if high - low <= 0.0 then map[] else map ratio | ratio in ratios :: LevelAt(ratio, high, low)
  }

  /** The level divides the swing from its high to its low in the given ratio. */
  ghost predicate Retraces(level: real, ratio: real, high: real, low: real) {
    && (high - level) * (1.0 - ratio) == (level - low) * ratio
    && (ratio == 0.0 ==> level == high) && (ratio == 1.0 ==> level == low)
  }

  lemma LevelRetraces(ratio: real, high: real, low: real)
    ensures Retraces(LevelAt(ratio, high, low), ratio, high, low)
  {
    var d, part := high - low, ratio * (high - low);
    assert high - LevelAt(ratio, high, low) == part;
    assert part * (1.0 - ratio) == part - part * ratio;
    assert (LevelAt(ratio, high, low) - low) * ratio == (d - part) * ratio == d * ratio - part * ratio;
  }

  /** Between the swings lie exactly the levels of ratios between 0 and 1. */
  lemma BetweenSwings(ratio: real, high: real, low: real)
    requires low < high
    ensures low < LevelAt(ratio, high, low) < high <==> 0.0 < ratio < 1.0
    ensures Retraces(LevelAt(ratio, high, low), ratio, high, low)
  {
    var d, other := high - low, 1.0 - ratio;
    var part, rest := ratio * d, other * d;
    ProductPositive(ratio, d);
    ProductPositive(other, d);
    assert part + rest == (ratio + other) * d == d;
    assert LevelAt(ratio, high, low) == high - part == low + rest;
    LevelRetraces(ratio, high, low);
  }

  /** Only one level divides the swing in a ratio, and a larger ratio gives a lower one. */
  lemma RetracesOrder(ratio: real, other: real, high: real, low: real, level: real, otherLevel: real)
    requires low < high && Retraces(level, ratio, high, low) && Retraces(otherLevel, other, high, low)
    ensures ratio < other <==> otherLevel < level
  {
    Divided(ratio, high, low, level);
    Divided(other, high, low, otherLevel);
    var more, d := other - ratio, high - low;
    assert more * d == other * d - ratio * d == level - otherLevel;
    ProductPositive(more, d);
  }

  lemma Divided(ratio: real, high: real, low: real, level: real)
    requires (high - level) * (1.0 - ratio) == (level - low) * ratio
    ensures high - level == ratio * (high - low)
  {
    assert (high - level) * (1.0 - ratio) == (high - level) - (high - level) * ratio;
    assert (high - level) * ratio + (level - low) * ratio == (high - low) * ratio;
  }

  datatype Setup = Setup(high: real, low: real, levels: map<real, real>)

  /** The retracement setup of a history. */
  ghost predicate SetupOf(threshold: real, ratios: seq<real>, h: seq<real>, setup: Option<Setup>) {
    && (setup.Some? <==> HasReversed(threshold, h) && ratios != [])
    && (setup.Some? ==>
          && LatestPeak(threshold, h, true) == Some(setup.value.high)
          && LatestPeak(threshold, h, false) == Some(setup.value.low)
          && (forall r :: r in setup.value.levels <==> r in ratios)
          && (forall r | r in setup.value.levels ::
               Retraces(setup.value.levels[r], r, setup.value.high, setup.value.low))
          && (forall r, q | r in setup.value.levels && q in setup.value.levels ::
               r < q <==> setup.value.levels[q] < setup.value.levels[r])
          && (forall r | r in setup.value.levels :: setup.value.low < setup.value.levels[r] < setup.value.high
               <==> 0.0 < r < 1.0))
  }

  /** The setup drawn from the latest peaks. */
  lemma DrawnSetup(threshold: real, ratios: seq<real>, h: seq<real>, high: real, low: real)
    requires LatestPeak(threshold, h, true) == Some(high) && LatestPeak(threshold, h, false) == Some(low)
    ensures low < high
    ensures
      var levels := RetracementLevels(ratios, high, low);
      SetupOf(threshold, ratios, h, if levels == map[] then None else Some(Setup(high, low, levels)))
  {
    SwingGap(threshold, h);
    var levels := RetracementLevels(ratios, high, low);
    assert forall r | r in ratios :: r in levels;
    assert ratios != [] ==> ratios[0] in levels;
    forall r | r in ratios
      ensures Retraces(levels[r], r, high, low) && (low < levels[r] < high <==> 0.0 < r < 1.0) {
      BetweenSwings(r, high, low);
    }
    forall r, q | r in ratios && q in ratios ensures r < q <==> levels[q] < levels[r] {
      RetracesOrder(r, q, high, low, levels[r], levels[q]);
    }
  }

  // ---------- saving and loading ----------

  /** The state after more prices. */
  function After(s: State, prices: seq<real>): State {
    if prices == [] then s else Finalized(Pushed(After(s, prices[..|prices| - 1]), prices[|prices| - 1]))
  }

  lemma {:induction false} HistoryIsRead(s: State, h: seq<real>, prices: seq<real>)
    requires Reads(s, h) && Positive(h) && Positive(prices)
    ensures Reads(After(s, prices), h + prices)
  {
    if prices == [] {
      assert h + prices == h;
    } else {
      PositiveParts(h, prices);
      HistoryIsRead(s, h, prices[..|prices| - 1]);
      LastIsRead(s, h, prices);
    }
  }

  lemma PositiveParts(h: seq<real>, prices: seq<real>)
    requires Positive(h) && Positive(prices) && prices != []
    ensures
      var init, p := prices[..|prices| - 1], prices[|prices| - 1];
      Positive(init) && Positive(h + init) && p > 0.0 && h + init + [p] == h + prices
  {
    var init, p := prices[..|prices| - 1], prices[|prices| - 1];
    assert p in prices;
    forall q | q in init ensures q > 0.0 {
      assert q in prices;
    }
    assert h + init + [p] == h + prices;
  }

  lemma LastIsRead(s: State, h: seq<real>, prices: seq<real>)
    requires Positive(h) && Positive(prices) && prices != []
    requires Reads(After(s, prices[..|prices| - 1]), h + prices[..|prices| - 1])
    ensures Reads(After(s, prices), h + prices)
  {
    var init, p := prices[..|prices| - 1], prices[|prices| - 1];
    PositiveParts(h, prices);
    PushedReads(After(s, init), h + init, p);
  }

  lemma LoadedIsSaved(s: State, h: seq<real>)
    requires Reads(s, h)
    ensures Load(Save(s)) == s
  {
  }

  /** Saving at any point and loading changes nothing that follows. */
  lemma ResumeAnywhere(threshold: real, before: seq<real>, later: seq<real>)
    requires Positive(before) && Positive(later)
    ensures
      var s := After(Initial(threshold), before);
      After(Load(Save(s)), later) == After(s, later) && Reads(After(s, later), before + later)
  {
    var s := After(Initial(threshold), before);
    HistoryIsRead(Initial(threshold), [], before);
    assert [] + before == before;
    LoadedIsSaved(s, before);
    HistoryIsRead(s, before, later);
  }

  // ---------- the detector in place ----------

  class ZigZagDetector {
    var threshold: real
    var prices: seq<real>
    var swingHighs: seq<real>
    var swingLows: seq<real>
    var up: Option<bool>
    var extreme: Option<real>
    /** Every price the detector has taken. */
    ghost var history: seq<real>

    function Value(): State reads this {
      State(threshold, prices, swingHighs, swingLows, up, extreme)
    }

    ghost predicate Valid() reads this {
      Positive(history) && Reads(Value(), history)
    }

    constructor (threshold: real)
      ensures Valid() && history == [] && this.threshold == threshold
    {
      this.threshold := threshold;
      prices, swingHighs, swingLows, up, extreme, history := [], [], [], None, None, [];
    }

    method Push(price: real)
      modifies this`prices, this`swingHighs, this`swingLows, this`up, this`extreme
      ensures Value() == Pushed(old(Value()), price)
    {
      prices := Newest(PRICE_WINDOW, prices + [price]);
      var n := |prices|;
      if n < 2 {
        return;
      }
      if n == 2 {
        up, extreme := Some(price > prices[0]), Some(price);
        return;
      }
      var previous := prices[n - 2];
      if price == previous {
        return;
      }
      var rising := price > previous;
      if extreme.None? {
        extreme := Some(price);
        return;
      }
      if Some(rising) == up {
        if (rising && price > extreme.value) || (!rising && price < extreme.value) {
          extreme := Some(price);
        }
      } else if extreme.value > 0.0 {
        var change := Abs(price - extreme.value) / extreme.value;
        if change >= threshold {
          if up == Some(true) {
            swingHighs := Newest(SWING_WINDOW, swingHighs + [extreme.value]);
          } else {
            swingLows := Newest(SWING_WINDOW, swingLows + [extreme.value]);
          }
          up, extreme := Some(rising), Some(price);
        }
      }
    }

    method FinalizeLastExtreme()
      modifies this`swingHighs, this`swingLows
      ensures Value() == Finalized(old(Value()))
    {
      if up.None? || extreme.None? {
        return;
      }
      if up.value {
        if swingHighs == [] || extreme.value != swingHighs[|swingHighs| - 1] {
          swingHighs := Newest(SWING_WINDOW, swingHighs + [extreme.value]);
        }
      } else if swingLows == [] || extreme.value != swingLows[|swingLows| - 1] {
        swingLows := Newest(SWING_WINDOW, swingLows + [extreme.value]);
      }
    }

    method Take(price: real)
      requires Valid() && price > 0.0
      modifies this
      ensures Valid() && threshold == old(threshold) && history == old(history) + [price]
    {
      PushedReads(Value(), history, price);
      Push(price);
      FinalizeLastExtreme();
      history := history + [price];
    }

    /** One evaluation: a positive spot price that the momentum filter lets through is taken and the setup is drawn. */
    method ComputeSetup(spot: Option<real>, confirmed: bool, ratios: seq<real>) returns (setup: Option<Setup>)
      requires Valid()
      modifies this
      ensures Valid() && threshold == old(threshold)
      ensures
        if spot.Some? && spot.value > 0.0 && confirmed
        then history == old(history) + [spot.value] && SetupOf(threshold, ratios, history, setup)
        else Value() == old(Value()) && history == old(history) && setup == None
    {
      if spot.None? || spot.value <= 0.0 || !confirmed {
        return None;
      }
      Take(spot.value);
      if swingHighs == [] || swingLows == [] {
        SwingGap(threshold, history);
        return None;
      }
      var high, low := swingHighs[|swingHighs| - 1], swingLows[|swingLows| - 1];
      DrawnSetup(threshold, ratios, history, high, low);
      if high <= low {
        return None;
      }
      var levels := RetracementLevels(ratios, high, low);
      if levels == map[] {
        return None;
      }
      setup := Some(Setup(high, low, levels));
    }

    /** Loading any record; one that a detector saved after the prices `taken` brings all of it back. */
    method LoadState(record: Record, ghost taken: seq<real>)
      modifies this
      ensures Value() == Load(record)
      ensures Positive(taken) && (exists s :: Reads(s, taken) && record == Save(s)) ==>
                Valid() && history == taken && record == Save(Value())
    {
      threshold, up, extreme := record.threshold, record.up, record.extreme;
      prices := Newest(PRICE_WINDOW, record.prices);
      swingHighs, swingLows := Newest(SWING_WINDOW, record.swingHighs), Newest(SWING_WINDOW, record.swingLows);
      history := taken;
    }
  }
}

/** The exit prices of a position travel with its entry order: computed with the entry, stamped on the order's tags,
    found again among the cached orders, and compared with the bid. */
module EntryThresholds {
  import opened Options
  import opened Sides
  import opened OrderTags
  import opened TradingState
  import ExitLoop
  import ExitPolicy
  import TpSl

  // ---------- from metrics to tags ----------

  /** The metrics that name exit prices, as finite numbers where they are present. */
  datatype Metrics = Metrics(
    tpProb: Option<real>, exitTp: Option<real>, stopProb: Option<real>, exitStop: Option<real>,
    flipEnabled: bool, flipPrice: Option<real>)

  function FirstPositive(values: seq<Option<real>>): Option<real> {
    if values == [] then None
    else if values[0].Some? && values[0].value > 0.0 then values[0] else FirstPositive(values[1..])
  }

  function FromMetrics(m: Metrics): Stamp {
    var stop := FirstPositive([m.stopProb, m.exitStop]);
    var flip := FirstPositive([m.flipPrice]);
    Stamp(FirstPositive([m.tpProb, m.exitTp]), if m.flipEnabled && flip.Some? then flip else stop)
  }

  predicate Usable(x: Option<real>) {
    x.Some? && x.value > 0.0
  }

  /** The computed prices come before those set by hand, only positive ones count, and an enabled flip price replaces
      the stop. */
  lemma FromMetricsExactly(m: Metrics)
    ensures FromMetrics(m).takeProfit ==
            if Usable(m.tpProb) then m.tpProb else if Usable(m.exitTp) then m.exitTp else None
    ensures FromMetrics(m).stopLoss ==
            if m.flipEnabled && Usable(m.flipPrice) then m.flipPrice
            else if Usable(m.stopProb) then m.stopProb
            else if Usable(m.exitStop) then m.exitStop else None
  {
    FirstOfTwo(m.tpProb, m.exitTp);
    FirstOfTwo(m.stopProb, m.exitStop);
    FirstOfOne(m.flipPrice);
  }

  lemma FirstOfTwo(x: Option<real>, y: Option<real>)
    ensures FirstPositive([x, y]) == if Usable(x) then x else if Usable(y) then y else None
  {
    assert [x, y][1..] == [y];
    FirstOfOne(y);
  }

  lemma FirstOfOne(x: Option<real>)
    ensures FirstPositive([x]) == if Usable(x) then x else None
  {
    assert FirstPositive([x][1..]) == None;
  }

  function Written(x: Option<real>, write: real -> string): Option<string> {
    if x.Some? then Some(write(x.value)) else None
  }

  /** The decision is an entry, and its exit prices are those of its metrics, written as texts. */
  predicate Stamps(d: Decision, m: Metrics, write: real -> string) {
    && !d.ReduceOnly()
    && d.takeProfit == Written(FromMetrics(m).takeProfit, write)
    && d.stopLoss == Written(FromMetrics(m).stopLoss, write)
  }

  /** The text of the number, where there is one, reads back as that number. */
  predicate ReadsBack(x: Option<real>, write: real -> string, read: string -> Option<real>) {
    x.Some? ==> read(write(x.value)) == x
  }

  lemma EntryStampTags(d: Decision)
    requires !d.ReduceOnly()
    ensures
      var tags := BuildOrderTags(d);
      && Get(tags, "exit_tp_price") == d.takeProfit && Get(tags, "exit_stop_price") == d.stopLoss
      && "reduce_only" !in tags && Get(tags, "strategy") == Some(d.strategy)
  {
    TagsSay(d);
    assert Get(BuildOrderTags(d), "reduce_only") == None;
  }

  // ---------- from tags to the view ----------

  lemma ReadBack(x: Option<real>, write: real -> string, lens: Lens)
    requires ReadsBack(x, write, lens.read)
    ensures lens.Number(Written(x, write)) == x
  {
  }

  lemma ViewOfTags(o: CacheOrder, tags: map<string, string>, lens: Lens)
    requires ParseTags(o.tags) == tags && "reduce_only" !in tags
    requires Get(tags, "strategy").Some? && Get(tags, "strategy").value != "" && lens.identity(o.instrumentId).Some?
    ensures
      var v := OrderViewOf(o, lens);
      && v.Some? && v.value.instrumentId == o.instrumentId
      && v.value.strategy == tags["strategy"] && !v.value.reduceOnly
      && v.value.stamp == StampOf(tags, lens)
  {
  }

  /** The view of an entry's cached order carries exactly the exit prices its metrics named. */
  lemma StampSurvives(d: Decision, m: Metrics, write: real -> string, o: CacheOrder, lens: Lens)
    requires Stamps(d, m, write) && ExitLoop.IsPrinting(o.tags, d)
    requires ReadsBack(FromMetrics(m).takeProfit, write, lens.read)
    requires ReadsBack(FromMetrics(m).stopLoss, write, lens.read)
    requires d.strategy != "" && lens.identity(o.instrumentId).Some?
    ensures
      var v := OrderViewOf(o, lens);
      && v.Some? && v.value.instrumentId == o.instrumentId && v.value.strategy == d.strategy && !v.value.reduceOnly
      && v.value.stamp == FromMetrics(m)
  {
    ExitLoop.PrintingParses(o.tags, d);
    EntryStampTags(d);
    ReadBack(FromMetrics(m).takeProfit, write, lens);
    ReadBack(FromMetrics(m).stopLoss, write, lens);
    ViewOfTags(o, BuildOrderTags(d), lens);
  }

  // ---------- from the view to the thresholds ----------

  /** Every other entry order of the position that carries a stamp came before. */
  ghost predicate IsLatest(trading: TradingState, p: PositionView, v: OrderView) {
    && v in trading.orders && IsEntryOf(v, p)
    && forall x | x in trading.orders && IsEntryOf(x, p) && x.stamp != Stamp(None, None) && x != v :: !NoLater(v, x)
  }

  lemma LatestRules(trading: TradingState, p: PositionView, v: OrderView)
    requires Find(trading.positions, p.positionId) == Some(p) && IsLatest(trading, p, v) && !v.stamp.Empty()
    ensures Thresholds(trading, p.positionId) == v.stamp
  {
    ThresholdsAreLatest(trading, p.positionId);
    var stamp := Thresholds(trading, p.positionId);
    if !stamp.Empty() {
      var o :| && o in trading.orders && IsEntryOf(o, p) && o.stamp == stamp
               && forall x | x in trading.orders && IsEntryOf(x, p) && x.stamp != Stamp(None, None) :: NoLater(x, o);
      assert NoLater(v, o);
    }
  }

  // ---------- from the computation to the exit ----------

  /** What a computed pair of thresholds puts into the metrics. */
  function MetricsOf(t: TpSl.Thresholds): Metrics {
    Metrics(t.takeProfit, None, Some(t.stop), None, false, None)
  }

  lemma PositiveIsStamped(t: TpSl.Thresholds)
    ensures FromMetrics(MetricsOf(t)) ==
      Stamp(if t.takeProfit.Some? && t.takeProfit.value > 0.0 then t.takeProfit else None,
            if t.stop > 0.0 then Some(t.stop) else None)
  {
    var none: Option<real> := None;
    assert [none][1..] == [] && [Some(t.stop), none][1..] == [none] && [t.takeProfit, none][1..] == [none];
    assert FirstPositive([none]) == None;
  }

  /** The exit prices apply, and the position has not been held too long. */
  predicate PricesDecide(policy: ExitPolicy.Policy, t: ExitPolicy.Tick, p: PositionView) {
    && policy.optionalTpSl && policy.takeProfitEnabled && policy.stopLossEnabled
    && (p.openedAt.Some? ==> t.now - p.openedAt.value < policy.maxHoldSeconds)
  }

  /** Due at the target, and at the loss price if there is a stop of its own or else at the policy's. */
  ghost predicate ClosesAt(policy: ExitPolicy.Policy, t: ExitPolicy.Tick, trading: TradingState, p: PositionView,
                           stop: real, target: real) {
    && (forall bid | bid > stop && (stop > 0.0 || bid > policy.stopLossPrice) ::
          ExitPolicy.Due(policy, t, trading, p, bid) == if bid >= target then Some("TAKE_PROFIT") else None)
    && ((forall bid | bid > 0.0 :: ExitPolicy.Due(policy, t, trading, p, bid) == Some("STOP_LOSS") <==> bid <= stop)
        <==> stop > 0.0 || policy.stopLossPrice <= 0.0)
  }

  lemma StampCloses(policy: ExitPolicy.Policy, t: ExitPolicy.Tick, trading: TradingState, p: PositionView, stop: real,
                    target: real)
    requires PricesDecide(policy, t, p) && 0.0 <= stop < target
    requires Thresholds(trading, p.positionId) == Stamp(Some(target), if stop > 0.0 then Some(stop) else None)
    ensures ClosesAt(policy, t, trading, p, stop, target)
  {
    assert "STOP_LOSS" != "TAKE_PROFIT" && "STOP_LOSS" != "MAX_HOLD_TIME";
    if stop == 0.0 && policy.stopLossPrice > 0.0 {
      assert ExitPolicy.Due(policy, t, trading, p, policy.stopLossPrice) == Some("STOP_LOSS");
    }
  }

  /** Computed, stamped, printed, cached, parsed, found and compared: a balanced pair closes its position for profit
      exactly at its own target, and at a loss exactly at its own stop unless that stop is zero, which it is exactly
      when the whole entry is at risk and the cap does not bind: a zero is not stamped, and the policy's stop price
      rules instead. */
  lemma BalancedEntryGovernsExit(entry: real, fraction: real, ratio: real, cap: real, d: Decision,
                                 write: real -> string,
                                 policy: ExitPolicy.Policy, t: ExitPolicy.Tick, cache: seq<CacheOrder>, o: CacheOrder,
                                 p: PositionView)
    requires 0.0 < entry < cap && fraction > 0.0 && ratio > 0.0
    requires
      var pair := TpSl.Compute(entry, fraction, ratio, cap);
      Stamps(d, MetricsOf(pair), write) && ReadsBack(pair.takeProfit, write, t.read) &&
        ReadsBack(Some(pair.stop), write, t.read)
    requires o in cache && ExitLoop.IsPrinting(o.tags, d) && d.strategy != "" && t.identity(o.instrumentId).Some?
    requires
      var trading := ExitLoop.StateAt(cache, t);
      && Find(trading.positions, p.positionId) == Some(p)
      && (OrderViewOf(o, t.View()).Some? ==> IsLatest(trading, p, OrderViewOf(o, t.View()).value))
    requires PricesDecide(policy, t, p)
    ensures
      var pair := TpSl.Compute(entry, fraction, ratio, cap);
      && pair.takeProfit.Some? && 0.0 <= pair.stop < entry < pair.takeProfit.value <= cap
      && ClosesAt(policy, t, ExitLoop.StateAt(cache, t), p, pair.stop, pair.takeProfit.value)
      && (pair.stop > 0.0 <==> fraction < 1.0 || cap < entry + TpSl.Reward(ratio, entry))
  {
    TpSl.StopPositiveExactly(entry, fraction, ratio, cap);
    var pair := TpSl.Compute(entry, fraction, ratio, cap);
    var trading := ExitLoop.StateAt(cache, t);
    TpSl.BalancedExactly(entry, fraction, ratio, cap);
    PositiveIsStamped(pair);
    StampSurvives(d, MetricsOf(pair), write, o, t.View());
    LatestRules(trading, p, OrderViewOf(o, t.View()).value);
    StampCloses(policy, t, trading, p, pair.stop, pair.takeProfit.value);
  }

  // ---------- two entries, all the way ----------

  /** An entry at 0.5 of the held position, its exit prices written as given. */
  function Entry(takeProfit: Option<string>, stopLoss: Option<string>): Decision {
    Decision("x", "alpha", "BTC", "5m", "m", "s", "c", "u", Up, "0.9", "0.5", "0.6", None, None, [], map[],
             takeProfit, stopLoss, None, false)
  }

  const POLICY := ExitPolicy.Policy(true, true, true, 0.9, 0.1, 60)

  function EntryTick(printer: Decision -> seq<string>, read: string -> Option<real>): ExitPolicy.Tick {
    ExitLoop.OneTick(printer).(read := read)
  }

  function EntryOrder(printer: Decision -> seq<string>, d: Decision): CacheOrder {
    CacheOrder("u", printer(d), true, false, 0, Some(1), 1)
  }

  lemma OneView(o: CacheOrder, lens: Lens)
    requires OrderViewOf(o, lens).Some? && lens.scope == None
    ensures OrderViews([o], lens) == [OrderViewOf(o, lens).value]
  {
    assert [o][..0] == [];
  }

  lemma HeldSeen(printer: Decision -> seq<string>, read: string -> Option<real>, cache: seq<CacheOrder>)
    ensures ExitLoop.StateAt(cache, EntryTick(printer, read)).positions == [ExitLoop.HELD]
  {
    var lens := EntryTick(printer, read).View();
    ExitLoop.HoldingView("p", "u", None, cache, lens);
    ExitLoop.SoleView(ExitLoop.HOLDING, cache, lens);
  }

  /** An entry at 0.5 under the cap 1 whose order is the only one cached closes its position as its own pair says. */
  lemma EntryCloses(fraction: real, ratio: real, d: Decision, write: real -> string, read: string -> Option<real>,
                    printer: Decision -> seq<string>)
    requires ExitLoop.Prints(printer) && fraction > 0.0 && ratio > 0.0 && d == Entry(d.takeProfit, d.stopLoss)
    requires
      var pair := TpSl.Compute(0.5, fraction, ratio, 1.0);
      Stamps(d, MetricsOf(pair), write) && ReadsBack(pair.takeProfit, write, read) &&
        ReadsBack(Some(pair.stop), write, read)
    ensures
      var pair, t := TpSl.Compute(0.5, fraction, ratio, 1.0), EntryTick(printer, read);
      && pair.takeProfit.Some?
      && ClosesAt(POLICY, t, ExitLoop.StateAt([EntryOrder(printer, d)], t), ExitLoop.HELD, pair.stop,
           pair.takeProfit.value)
  {
    var pair, t, o := TpSl.Compute(0.5, fraction, ratio, 1.0), EntryTick(printer, read), EntryOrder(printer, d);
    assert ExitLoop.IsPrinting(printer(d), d);
    TpSl.BalancedExactly(0.5, fraction, ratio, 1.0);
    PositiveIsStamped(pair);
    StampSurvives(d, MetricsOf(pair), write, o, t.View());
    OneView(o, t.View());
    HeldSeen(printer, read, [o]);
    BalancedEntryGovernsExit(0.5, fraction, ratio, 1.0, d, write, POLICY, t, [o], o, ExitLoop.HELD);
  }

  function WriteHalf(x: real): string {
    if x == 0.75 then "tp" else "sl"
  }

  function ReadHalf(text: string): Option<real> {
    if text == "tp" then Some(0.75) else if text == "sl" then Some(0.25) else None
  }

  lemma HalfAtEvenOdds()
    ensures TpSl.Compute(0.5, 0.5, 1.0, 1.0) == TpSl.Thresholds(0.25, Some(0.75), 0.25, None)
  {
    assert TpSl.RequestedStop(0.5, 0.5) == 0.25 && TpSl.Reward(1.0, 0.25) == 0.25;
  }

  /** Half the entry at risk at even odds: it closes at 0.25 and at 0.75, whatever the policy's own prices. */
  lemma OneEntryGovernsExit(printer: Decision -> seq<string>)
    requires ExitLoop.Prints(printer)
    ensures
      var t := EntryTick(printer, ReadHalf);
      ClosesAt(POLICY, t, ExitLoop.StateAt([EntryOrder(printer, Entry(Some("tp"), Some("sl")))], t), ExitLoop.HELD,
        0.25, 0.75)
  {
    HalfAtEvenOdds();
    PositiveIsStamped(TpSl.Compute(0.5, 0.5, 1.0, 1.0));
    EntryCloses(0.5, 1.0, Entry(Some("tp"), Some("sl")), WriteHalf, ReadHalf, printer);
  }

  function WriteAll(x: real): string {
    if x == 1.0 then "tp" else "sl"
  }

  function ReadAll(text: string): Option<real> {
    if text == "tp" then Some(1.0) else if text == "sl" then Some(0.0) else None
  }

  lemma AllAtEvenOdds()
    ensures TpSl.Compute(0.5, 1.0, 1.0, 1.0) == TpSl.Thresholds(0.0, Some(1.0), 0.5, None)
  {
    assert TpSl.RequestedStop(0.5, 1.0) == 0.0 && TpSl.Reward(1.0, 0.5) == 0.5;
  }

  /** The whole entry at risk: its own stop is zero, but at 0.05 the policy's stop of 0.1 closes it. */
  lemma ZeroStopIsOverruled(printer: Decision -> seq<string>)
    requires ExitLoop.Prints(printer)
    ensures TpSl.Compute(0.5, 1.0, 1.0, 1.0).stop == 0.0
    ensures
      var t := EntryTick(printer, ReadAll);
      var trading := ExitLoop.StateAt([EntryOrder(printer, Entry(Some("tp"), None))], t);
      ExitPolicy.Due(POLICY, t, trading, ExitLoop.HELD, 0.05) == Some("STOP_LOSS")
  {
    AllAtEvenOdds();
    var pair, d := TpSl.Compute(0.5, 1.0, 1.0, 1.0), Entry(Some("tp"), None);
    var t, o := EntryTick(printer, ReadAll), EntryOrder(printer, d);
    PositiveIsStamped(pair);
    assert ExitLoop.IsPrinting(printer(d), d);
    StampSurvives(d, MetricsOf(pair), WriteAll, o, t.View());
    OneView(o, t.View());
    HeldSeen(printer, ReadAll, [o]);
    LatestRules(ExitLoop.StateAt([o], t), ExitLoop.HELD, OrderViewOf(o, t.View()).value);
  }
}

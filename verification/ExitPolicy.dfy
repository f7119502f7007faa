/** The software exit policy: which positions are to be closed, at which price and for which reason, and the decisions
    that close them. */
module ExitPolicy {
  import opened Options
  import opened Sides
  import opened OrderTags
  import opened TradingState

  // ---------- deciding ----------

  datatype Policy = Policy(
    optionalTpSl: bool, takeProfitEnabled: bool, stopLossEnabled: bool,
    takeProfitPrice: real, stopLossPrice: real, maxHoldSeconds: int)

  /** One evaluation of a market: the view's identity and freshness, its two tokens, and everything read from outside.
      `accepts` says which decisions the gate approves and the venue mapping accepts; `scoped` is set when the trading
      state comes from a snapshot of all conditions. */
  datatype Tick = Tick(
    conditionId: string, asset: string, timeframe: string, marketId: string, marketSlug: string,
    secondsToClose: Option<string>, freshness: Option<string>,
    upToken: string, downToken: string, resolve: string -> string, identity: string -> Option<string>, scoped: bool,
    positions: seq<CachePosition>, bid: Side -> Option<real>, now: int,
    read: string -> Option<real>, text: real -> string, timeText: int -> string, signalId: string, rank: nat -> int,
    accepts: Decision -> bool, printer: Decision -> seq<string>)
  {
    function View(): Lens {
      Lens(identity, if scoped then Some(conditionId) else None, read)
    }

    /** The token and side of the view's pair that an instrument stands for. */
    function TokenOf(instrumentId: string): Option<(string, Side)> {
      if upToken != "" && resolve(upToken) == instrumentId then Some((upToken, Up))
      else if downToken != "" && resolve(downToken) == instrumentId then Some((downToken, Down))
      else None
    }
  }

  function Reason(policy: Policy, bid: real, openedAt: Option<int>, now: int, stamp: Stamp): Option<string> {
    var stop := if stamp.stopLoss.Some? then stamp.stopLoss.value else policy.stopLossPrice;
    var take := if stamp.takeProfit.Some? then stamp.takeProfit.value else policy.takeProfitPrice;
    if policy.optionalTpSl && policy.stopLossEnabled && bid <= stop then Some("STOP_LOSS")
    else if policy.optionalTpSl && policy.takeProfitEnabled && bid >= take then Some("TAKE_PROFIT")
    else if openedAt.Some? && now - openedAt.value >= policy.maxHoldSeconds then Some("MAX_HOLD_TIME")
    else None
  }

  function Stake(p: PositionView): (stake: real)
    ensures stake == p.quantity * p.averagePrice
  {
    p.averagePrice * p.quantity
  }

  function ExitMetrics(t: Tick, p: PositionView, token: string, side: Side, bid: real,
                       reason: string): map<string, string> {
    var base := map["reduce_only" := "True", "exit_reason" := reason, "position_quantity" := t.text(p.quantity),
                    "entry_price" := t.text(p.averagePrice), "exit_price" := t.text(bid), "side" := SideText(side),
                    "condition_id" := t.conditionId, "token_id" := token,
                    "stake_usdc" := t.text(Stake(p))];
    var timed := if p.openedAt.Some? then base["opened_at" := t.timeText(p.openedAt.value)] else base;
    timed["position_id" := p.positionId]
  }

  function ExitDecision(t: Tick, p: PositionView, token: string, side: Side, bid: real, reason: string): Decision {
    Decision(t.signalId, "native_exit", t.asset, t.timeframe, t.marketId, t.marketSlug, t.conditionId, token, side,
             "1.0", t.text(bid), t.text(bid), t.secondsToClose, t.freshness, ["NATIVE_EXIT", reason],
             ExitMetrics(t, p, token, side, bid, reason), None, None, Some(IntentSpec(TakerFak, None, None, true)),
             false)
  }

  /** Why the position is to be closed at the bid, if it is. */
  function Due(policy: Policy, t: Tick, trading: TradingState, p: PositionView, bid: real): Option<string> {
    Reason(policy, bid, p.openedAt, t.now, Thresholds(trading, p.positionId))
  }

  function Decide(policy: Policy, t: Tick, trading: TradingState, p: PositionView): Option<Decision> {
    if p.positionId == "" || p.instrumentId == "" || p.quantity <= 0.0 || t.TokenOf(p.instrumentId).None? then None
    else
      var (token, side) := t.TokenOf(p.instrumentId).value;
      var bid := t.bid(side);
      if bid.None? || bid.value <= 0.0 then None
      else
        var reason := Due(policy, t, trading, p, bid.value);
        if reason.None? || HasExitOrder(trading.orders, p.positionId) then None
        else Some(ExitDecision(t, p, token, side, bid.value, reason.value))
  }

  function Decisions(policy: Policy, t: Tick, trading: TradingState, positions: seq<PositionView>): seq<Decision> {
    if positions == [] then []
    else
      var rest := Decisions(policy, t, trading, positions[..|positions| - 1]);
      var p := positions[|positions| - 1];
      var d := if p.conditionId == t.conditionId then Decide(policy, t, trading, p) else None;
      if d.Some? then rest + [d.value] else rest
  }

  // ---------- which exits are due ----------

  predicate IsTokenOf(t: Tick, token: string, instrumentId: string) {
    token != "" && t.resolve(token) == instrumentId
  }

  /** The instrument is that of the pair's token on this side; the UP token is asked first. */
  predicate StandsFor(t: Tick, instrumentId: string, side: Side) {
    match side
    case Up => IsTokenOf(t, t.upToken, instrumentId)
    case Down => IsTokenOf(t, t.downToken, instrumentId) && !IsTokenOf(t, t.upToken, instrumentId)
  }

  predicate StopHit(policy: Policy, stamp: Stamp, bid: real) {
    && policy.optionalTpSl && policy.stopLossEnabled
    && (if stamp.stopLoss.Some? then bid <= stamp.stopLoss.value else bid <= policy.stopLossPrice)
  }

  predicate TargetHit(policy: Policy, stamp: Stamp, bid: real) {
    && policy.optionalTpSl && policy.takeProfitEnabled
    && (if stamp.takeProfit.Some? then stamp.takeProfit.value <= bid else policy.takeProfitPrice <= bid)
  }

  predicate HeldTooLong(policy: Policy, openedAt: Option<int>, now: int) {
    openedAt.Some? && openedAt.value + policy.maxHoldSeconds <= now
  }

  /** The reason given is the first of the three that applies. */
  predicate FirstReason(policy: Policy, t: Tick, p: PositionView, stamp: Stamp, bid: real, reason: string) {
    if StopHit(policy, stamp, bid) then reason == "STOP_LOSS"
    else if TargetHit(policy, stamp, bid) then reason == "TAKE_PROFIT"
    else HeldTooLong(policy, p.openedAt, t.now) && reason == "MAX_HOLD_TIME"
  }

  /** At this side's bid there is a reason to close the position. */
  predicate DueOn(policy: Policy, t: Tick, trading: TradingState, p: PositionView, side: Side) {
    && StandsFor(t, p.instrumentId, side) && t.bid(side).Some? && t.bid(side).value > 0.0
    && var stamp, bid := Thresholds(trading, p.positionId), t.bid(side).value;
       StopHit(policy, stamp, bid) || TargetHit(policy, stamp, bid) || HeldTooLong(policy, p.openedAt, t.now)
  }

  /** A position of the view's condition that is to be closed, and for which no exit is on its way. */
  predicate NeedsExit(policy: Policy, t: Tick, trading: TradingState, p: PositionView) {
    && p.conditionId == t.conditionId && p.positionId != "" && p.instrumentId != "" && p.quantity > 0.0
    && (exists side :: DueOn(policy, t, trading, p, side))
    && !exists o | o in trading.orders :: o.reduceOnly && o.live && o.positionId == Some(p.positionId)
  }

  /** The decision closes the position: on its own side, at that side's bid, for the first reason that applies. */
  ghost predicate Exits(policy: Policy, t: Tick, trading: TradingState, p: PositionView, d: Decision) {
    && DueOn(policy, t, trading, p, d.side) && d.tokenId == (if d.side.Up? then t.upToken else t.downToken)
    && d.order == Some(IntentSpec(TakerFak, None, None, true)) && d.strategy == "native_exit"
    && d.conditionId == t.conditionId && d.asset == t.asset && d.timeframe == t.timeframe && d.marketId == t.marketId
    && d.marketSlug == t.marketSlug && d.signalId == t.signalId && d.confidence == "1.0"
    && d.secondsToClose == t.secondsToClose && d.dataFreshnessMs == t.freshness
    && d.takeProfit == None && d.stopLoss == None && !d.hedgeLeg
    && d.entryReferencePrice == d.maxEntryPrice == t.text(t.bid(d.side).value)
    && Get(d.metrics, "position_id") == Some(p.positionId)
    && Get(d.metrics, "position_quantity") == Some(t.text(p.quantity))
    && Get(d.metrics, "entry_price") == Some(t.text(p.averagePrice))
    && Get(d.metrics, "exit_price") == Some(d.maxEntryPrice)
    && Get(d.metrics, "stake_usdc") == Some(t.text(Stake(p)))
    && Get(d.metrics, "opened_at") == (if p.openedAt.Some? then Some(t.timeText(p.openedAt.value)) else None)
    && (exists reason ::
          && FirstReason(policy, t, p, Thresholds(trading, p.positionId), t.bid(d.side).value, reason)
          && Get(d.metrics, "exit_reason") == Some(reason) && d.reasonCodes == ["NATIVE_EXIT", reason])
  }

  lemma DecideExactly(policy: Policy, t: Tick, trading: TradingState, p: PositionView)
    requires p.conditionId == t.conditionId
    ensures Decide(policy, t, trading, p).Some? <==> NeedsExit(policy, t, trading, p)
    ensures Decide(policy, t, trading, p).Some? ==> Exits(policy, t, trading, p, Decide(policy, t, trading, p).value)
  {
    TokenExactly(t, p.instrumentId);
    var token := t.TokenOf(p.instrumentId);
    if token.Some? && t.bid(token.value.1).Some? {
      var side, stamp := token.value.1, Thresholds(trading, p.positionId);
      var bid := t.bid(side).value;
      ReasonExactly(policy, t, p, stamp, bid);
      assert bid > 0.0 ==> (DueOn(policy, t, trading, p, side) <==> Due(policy, t, trading, p, bid).Some?);
      if Decide(policy, t, trading, p).Some? {
        var d := Decide(policy, t, trading, p).value;
        MetricsOfExit(t, p, token.value.0, side, bid, Due(policy, t, trading, p, bid).value);
        assert d.metrics == ExitMetrics(t, p, token.value.0, side, bid, Due(policy, t, trading, p, bid).value);
      }
    }
  }

  lemma TokenExactly(t: Tick, instrumentId: string)
    ensures t.TokenOf(instrumentId).None? <==> forall side :: !StandsFor(t, instrumentId, side)
    ensures t.TokenOf(instrumentId).Some? ==>
      var (token, side) := t.TokenOf(instrumentId).value;
      && StandsFor(t, instrumentId, side) && token == (if side.Up? then t.upToken else t.downToken)
      && forall other | StandsFor(t, instrumentId, other) :: other == side
  {
    assert StandsFor(t, instrumentId, Up) || StandsFor(t, instrumentId, Down) ||
           forall side: Side :: !StandsFor(t, instrumentId, side);
  }

  lemma ReasonExactly(policy: Policy, t: Tick, p: PositionView, stamp: Stamp, bid: real)
    ensures
      var reason := Reason(policy, bid, p.openedAt, t.now, stamp);
      if reason.Some? then FirstReason(policy, t, p, stamp, bid, reason.value)
      else !StopHit(policy, stamp, bid) && !TargetHit(policy, stamp, bid) && !HeldTooLong(policy, p.openedAt, t.now)
  {
  }

  lemma MetricsOfExit(t: Tick, p: PositionView, token: string, side: Side, bid: real, reason: string)
    ensures
      var m := ExitMetrics(t, p, token, side, bid, reason);
      && Get(m, "position_id") == Some(p.positionId) && Get(m, "position_quantity") == Some(t.text(p.quantity))
      && Get(m, "entry_price") == Some(t.text(p.averagePrice)) && Get(m, "exit_price") == Some(t.text(bid))
      && Get(m, "exit_reason") == Some(reason) && Get(m, "stake_usdc") == Some(t.text(Stake(p)))
      && Get(m, "opened_at") == (if p.openedAt.Some? then Some(t.timeText(p.openedAt.value)) else None)
  {
    var m := ExitMetrics(t, p, token, side, bid, reason);
    assert "stake_usdc" != "opened_at" && "stake_usdc" != "position_id" && "opened_at" != "position_id";
    assert "stake_usdc" in m && m["stake_usdc"] == t.text(Stake(p));
  }

  /** `at` lists the positions that need an exit, in their order, and each has its decision. */
  ghost predicate ClosedAt(policy: Policy, t: Tick, trading: TradingState, ps: seq<PositionView>, ds: seq<Decision>,
                           at: seq<nat>) {
    && |at| == |ds| && Increasing(at)
    && (forall k | 0 <= k < |at| :: at[k] < |ps| && Exits(policy, t, trading, ps[at[k]], ds[k]))
    && (forall n | 0 <= n < |ps| :: n in at <==> NeedsExit(policy, t, trading, ps[n]))
  }

  lemma NotDue(policy: Policy, t: Tick, trading: TradingState, ps: seq<PositionView>, p: PositionView,
               ds: seq<Decision>, at: seq<nat>)
    requires ClosedAt(policy, t, trading, ps, ds, at) && !NeedsExit(policy, t, trading, p)
    ensures ClosedAt(policy, t, trading, ps + [p], ds, at)
  {
    var all := ps + [p];
    forall n | 0 <= n < |all| ensures n in at <==> NeedsExit(policy, t, trading, all[n]) {
      if n < |ps| {
        assert all[n] == ps[n];
      } else {
        assert all[n] == p && n !in at;
      }
    }
  }

  lemma OneMoreDue(policy: Policy, t: Tick, trading: TradingState, ps: seq<PositionView>, p: PositionView,
                   ds: seq<Decision>, at: seq<nat>, d: Decision)
    requires ClosedAt(policy, t, trading, ps, ds, at) && NeedsExit(policy, t, trading, p)
    requires Exits(policy, t, trading, p, d)
    ensures ClosedAt(policy, t, trading, ps + [p], ds + [d], at + [|ps|])
  {
    var all, at' := ps + [p], at + [|ps|];
    assert all[|ps|] == p && (ds + [d])[|ds|] == d;
    forall n | 0 <= n < |all| ensures n in at' <==> NeedsExit(policy, t, trading, all[n]) {
      if n < |ps| {
        assert all[n] == ps[n];
        assert n in at' <==> n in at;
      } else {
        assert all[n] == p && at'[|at|] == n;
      }
    }
  }

  lemma {:induction false} DueAreDecided(policy: Policy, t: Tick, trading: TradingState, ps: seq<PositionView>)
    returns (at: seq<nat>)
    ensures ClosedAt(policy, t, trading, ps, Decisions(policy, t, trading, ps), at)
  {
    if ps == [] {
      at := [];
    } else {
      var init, p := ps[..|ps| - 1], ps[|ps| - 1];
      assert ps == init + [p];
      at := DueAreDecided(policy, t, trading, init);
      var ds := Decisions(policy, t, trading, init);
      var d := if p.conditionId == t.conditionId then Decide(policy, t, trading, p) else None;
      if p.conditionId == t.conditionId {
        DecideExactly(policy, t, trading, p);
      }
      if d.Some? {
        OneMoreDue(policy, t, trading, init, p, ds, at, d.value);
        at := at + [|init|];
      } else {
        NotDue(policy, t, trading, init, p, ds, at);
      }
    }
  }

  method ExitDecisions(policy: Policy, t: Tick, trading: TradingState) returns (decisions: seq<Decision>)
    ensures decisions == Decisions(policy, t, trading, trading.positions)
    ensures exists at :: ClosedAt(policy, t, trading, trading.positions, decisions, at)
  {
    decisions := [];
    var ps := trading.positions;
    for n := 0 to |ps|
      invariant decisions == Decisions(policy, t, trading, ps[..n])
    {
      assert ps[..n + 1][..n] == ps[..n];
      if ps[n].conditionId == t.conditionId {
        var d := Decide(policy, t, trading, ps[n]);
        if d.Some? {
          decisions := decisions + [d.value];
        }
      }
    }
    assert ps[..|ps|] == ps;
    ghost var at := DueAreDecided(policy, t, trading, ps);
  }
}

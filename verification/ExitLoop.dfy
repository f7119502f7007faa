/** The software exit loop: cached orders and positions are read into a trading state, positions that hit a threshold
    get an exit decision, and accepted decisions become tagged orders in the same cache. The tags are all that tells
    the next round that an exit is already on its way. */
module ExitLoop {
  import opened Options
  import opened Sides
  import opened OrderTags
  import opened TradingState
  import opened ExitPolicy

  // ---------- submitting ----------

  /** Decisions are taken in order; one whose key is already in flight is rejected, and a submitted one puts its key
      in flight. */
  function Submitted(ds: seq<Decision>, inFlight: set<string>, accepts: Decision -> bool): seq<Decision> {
    if ds == [] then []
    else if accepts(ds[0]) && ds[0].DedupeKey() !in inFlight then
      [ds[0]] + Submitted(ds[1..], inFlight + {ds[0].DedupeKey()}, accepts)
    else Submitted(ds[1..], inFlight, accepts)
  }

  function KeysInFlight(orders: seq<OrderView>): set<string> {
    set o | o in orders && o.live && o.dedupeKey.Some? :: o.dedupeKey.value
  }

  /** The gate accepts the n-th decision, its key is not in flight, and no earlier accepted one has its key. */
  ghost predicate GoesOut(ds: seq<Decision>, inFlight: set<string>, accepts: Decision -> bool, n: nat)
    requires n < |ds|
  {
    && accepts(ds[n]) && ds[n].DedupeKey() !in inFlight
    && forall m | 0 <= m < n && accepts(ds[m]) :: ds[m].DedupeKey() != ds[n].DedupeKey()
  }

  /** The indices name what was picked. */
  ghost predicate Names(ds: seq<Decision>, picked: seq<Decision>, at: seq<nat>) {
    |at| == |picked| && Increasing(at) && forall k | 0 <= k < |at| :: at[k] < |ds| && picked[k] == ds[at[k]]
  }

  /** `at` lists the decisions that go out, in their order. */
  ghost predicate PickedAt(ds: seq<Decision>, inFlight: set<string>, accepts: Decision -> bool, picked: seq<Decision>,
                           at: seq<nat>) {
    Names(ds, picked, at) && forall n | 0 <= n < |ds| :: n in at <==> GoesOut(ds, inFlight, accepts, n)
  }

  function Later(at: seq<nat>): (r: seq<nat>)
    ensures |r| == |at| && forall k | 0 <= k < |at| :: r[k] == at[k] + 1
  {
    seq(|at|, k requires 0 <= k < |at| => at[k] + 1)
  }

  lemma LaterHolds(at: seq<nat>, n: nat)
    ensures n + 1 in Later(at) <==> n in at
    ensures 0 !in Later(at)
    ensures Increasing(at) ==> Increasing(Later(at)) && Increasing([0] + Later(at))
  {
    if n in at {
      var k :| 0 <= k < |at| && at[k] == n;
      assert Later(at)[k] == n + 1;
    }
  }

  lemma GoesOutLater(d: Decision, ds: seq<Decision>, inFlight: set<string>, accepts: Decision -> bool, n: nat)
    requires n < |ds|
    ensures GoesOut([d] + ds, inFlight, accepts, n + 1) <==>
      GoesOut(ds, if GoesOut([d], inFlight, accepts, 0) then inFlight + {d.DedupeKey()} else inFlight, accepts, n)
  {
    var all := [d] + ds;
    assert all[0] == d && all[n + 1] == ds[n];
    assert forall m | 0 <= m < n :: all[m + 1] == ds[m];
    assert forall m | 0 <= m < n + 1 :: m == 0 || all[m] == ds[m - 1];
  }

  lemma NamesLater(d: Decision, ds: seq<Decision>, picked: seq<Decision>, at: seq<nat>)
    requires Names(ds, picked, at)
    ensures Names([d] + ds, picked, Later(at)) && Names([d] + ds, [d] + picked, [0] + Later(at))
  {
    LaterHolds(at, 0);
  }

  lemma PickedLater(d: Decision, ds: seq<Decision>, inFlight: set<string>, accepts: Decision -> bool, at: seq<nat>,
                    n: nat)
    requires n < |ds| + 1
    requires
      var inFlight' := if GoesOut([d], inFlight, accepts, 0) then inFlight + {d.DedupeKey()} else inFlight;
      forall m | 0 <= m < |ds| :: m in at <==> GoesOut(ds, inFlight', accepts, m)
    ensures GoesOut([d] + ds, inFlight, accepts, n)
            <==> (if n == 0 then GoesOut([d], inFlight, accepts, 0) else n in Later(at))
  {
    if n > 0 {
      LaterHolds(at, n - 1);
      GoesOutLater(d, ds, inFlight, accepts, n - 1);
    } else {
      assert ([d] + ds)[0] == d;
    }
  }

  /** A decision is submitted exactly if the gate accepts it, its key was not in flight before the round and none of the
      earlier accepted ones has it; those submitted keep their order. */
  lemma {:induction false} SubmittedExactly(ds: seq<Decision>, inFlight: set<string>, accepts: Decision -> bool)
    returns (at: seq<nat>)
    ensures PickedAt(ds, inFlight, accepts, Submitted(ds, inFlight, accepts), at)
  {
    if ds == [] {
      at := [];
    } else {
      var d, rest := ds[0], ds[1..];
      assert ds == [d] + rest;
      var first := GoesOut([d], inFlight, accepts, 0);
      assert first <==> accepts(d) && d.DedupeKey() !in inFlight;
      var inFlight' := if first then inFlight + {d.DedupeKey()} else inFlight;
      var later := SubmittedExactly(rest, inFlight', accepts);
      var picked := Submitted(rest, inFlight', accepts);
      NamesLater(d, rest, picked, later);
      LaterHolds(later, 0);
      at := if first then [0] + Later(later) else Later(later);
      forall n | 0 <= n < |ds| ensures n in at <==> GoesOut(ds, inFlight, accepts, n) {
        PickedLater(d, rest, inFlight, accepts, later, n);
        assert n in at <==> (first && n == 0) || n in Later(later);
      }
    }
  }

  lemma InFlightExactly(orders: seq<OrderView>, key: string)
    ensures key in KeysInFlight(orders) <==> exists o :: o in orders && o.live && o.dedupeKey == Some(key)
  {
  }

  method ApplyDecisions(ds: seq<Decision>, orders: seq<OrderView>, accepts: Decision -> bool)
    returns (submitted: seq<Decision>)
    ensures submitted == Submitted(ds, KeysInFlight(orders), accepts)
    ensures exists at :: PickedAt(ds, KeysInFlight(orders), accepts, submitted, at)
  {
    var inFlight := KeysInFlight(orders);
    submitted := [];
    for n := 0 to |ds|
      invariant submitted + Submitted(ds[n..], inFlight, accepts) == Submitted(ds, KeysInFlight(orders), accepts)
    {
      assert ds[n..][1..] == ds[n + 1..];
      if accepts(ds[n]) && ds[n].DedupeKey() !in inFlight {
        assert submitted + ([ds[n]] + Submitted(ds[n + 1..], inFlight + {ds[n].DedupeKey()}, accepts))
            == (submitted + [ds[n]]) + Submitted(ds[n + 1..], inFlight + {ds[n].DedupeKey()}, accepts);
        submitted := submitted + [ds[n]];
        inFlight := inFlight + {ds[n].DedupeKey()};
      }
    }
    ghost var at := SubmittedExactly(ds, KeysInFlight(orders), accepts);
  }

  /** The texts are the tags of the decision's order, one each, in some order. */
  ghost predicate IsPrinting(raw: seq<string>, d: Decision) {
    exists keys :: Lists(keys, BuildOrderTags(d)) && raw == PrintTags(BuildOrderTags(d), keys)
  }

  /** The runtime sorts the keys; no theorem depends on their order. */
  ghost predicate Prints(printer: Decision -> seq<string>) {
    forall d :: IsPrinting(printer(d), d)
  }

  lemma PrintingParses(raw: seq<string>, d: Decision)
    requires IsPrinting(raw, d)
    ensures ParseTags(raw) == BuildOrderTags(d)
  {
    var keys :| Lists(keys, BuildOrderTags(d)) && raw == PrintTags(BuildOrderTags(d), keys);
    SubmittedTagsParseBack(d, keys);
  }

  /** Some listing of a dictionary's keys. */
  ghost function Listing(tags: map<string, string>): (keys: seq<string>)
    ensures Lists(keys, tags)
    decreases tags.Keys
  {
    if tags.Keys == {} then []
    else
      var k :| k in tags;
      [k] + Listing(tags - {k})
  }

  ghost function SomePrinter(): Decision -> seq<string> {
    d => PrintTags(BuildOrderTags(d), Listing(BuildOrderTags(d)))
  }

  lemma SomePrinterPrints()
    ensures Prints(SomePrinter())
  {
  }

  function OrderOf(d: Decision, t: Tick, rank: int): CacheOrder {
    CacheOrder(t.resolve(d.tokenId), t.printer(d), false, true, rank, None, 0)
  }

  function StateAt(cache: seq<CacheOrder>, t: Tick): TradingState {
    StateOf(cache, t.positions, t.View())
  }

  /** The decisions of one round that are submitted. */
  function SubmittedAt(policy: Policy, cache: seq<CacheOrder>, t: Tick): seq<Decision> {
    var trading := StateAt(cache, t);
    Submitted(Decisions(policy, t, trading, trading.positions), KeysInFlight(trading.orders), t.accepts)
  }

  function NewOrders(submitted: seq<Decision>, t: Tick): (news: seq<CacheOrder>)
    ensures |news| == |submitted| && forall n | 0 <= n < |news| :: news[n] == OrderOf(submitted[n], t, t.rank(n))
  {
    seq(|submitted|, n requires 0 <= n < |submitted| => OrderOf(submitted[n], t, t.rank(n)))
  }

  function Evaluate(policy: Policy, cache: seq<CacheOrder>, t: Tick): seq<CacheOrder> {
    cache + NewOrders(SubmittedAt(policy, cache, t), t)
  }

  // ---------- runs ----------

  ghost predicate ClaimsOnly(o: CacheOrder, positionId: string) {
    forall p :: Claims(o, p) <==> p == positionId
  }

  datatype Event =
    | EvaluateExits(tick: Tick)
    | VenueUpdate(index: nat, isOpen: bool, isInflight: bool, tsEvent: Option<int>, tsLast: int)
    | PlaceOther(order: CacheOrder)
    | Purge(index: nat)

  type Home = string -> (string, string)

  /** A position keeps its instrument and its condition for as long as it is seen. */
  ghost predicate Homed(home: Home, cache: seq<CacheOrder>, t: Tick) {
    forall p | p in t.positions && PositionViewOf(p, cache, t.View()).Some? ::
      home(p.positionId) == (p.instrumentId, PositionViewOf(p, cache, t.View()).value.conditionId)
  }

  /** Live orders stay in the cache, dead ones do not revive, and no other order claims a position. */
  ghost predicate Legal(home: Home, cache: seq<CacheOrder>, e: Event) {
    match e
    case EvaluateExits(t) => Homed(home, cache, t) && Prints(t.printer)
    case VenueUpdate(n, isOpen, isInflight, _, _) => n < |cache| && (isOpen || isInflight ==> cache[n].Live())
    case PlaceOther(o) => forall p :: !Claims(o, p)
    case Purge(n) => n < |cache| && !cache[n].Live()
  }

  function Step(policy: Policy, cache: seq<CacheOrder>, e: Event): seq<CacheOrder> {
    match e
    case EvaluateExits(t) => Evaluate(policy, cache, t)
    case VenueUpdate(n, isOpen, isInflight, tsEvent, tsLast) =>
      if n >= |cache| then cache
      else cache[n := cache[n].(isOpen := isOpen, isInflight := isInflight, tsEvent := tsEvent, tsLast := tsLast)]
    case PlaceOther(o) => cache + [o]
    case Purge(n) => if n < |cache| then cache[..n] + cache[n + 1..] else cache
  }

  function Run(policy: Policy, cache: seq<CacheOrder>, es: seq<Event>): seq<CacheOrder>
    decreases es
  {
    if es == [] then cache else Run(policy, Step(policy, cache, es[0]), es[1..])
  }

  ghost predicate LegalRun(home: Home, policy: Policy, cache: seq<CacheOrder>, es: seq<Event>)
    decreases es
  {
    es == [] || (Legal(home, cache, es[0]) && LegalRun(home, policy, Step(policy, cache, es[0]), es[1..]))
  }

  ghost predicate SingleExits(cache: seq<CacheOrder>) {
    forall i, j, p | 0 <= i < j < |cache| && LiveExit(cache[i], p) :: !LiveExit(cache[j], p)
  }

  /** Every live exit sits on its position's instrument and is tagged with its condition. */
  ghost predicate ExitsAtHome(home: Home, cache: seq<CacheOrder>) {
    forall i, p | 0 <= i < |cache| && LiveExit(cache[i], p) ::
      cache[i].instrumentId == home(p).0 && Get(ParseTags(cache[i].tags), "condition_id") == Some(home(p).1)
  }

  /** What a decision of the policy is guaranteed to be, for the position it names. */
  ghost predicate ExitFor(home: Home, cache: seq<CacheOrder>, t: Tick, d: Decision) {
    && d.ReduceOnly() && d.strategy == "native_exit" && d.order.value.pairId == None && d.order.value.intent == TakerFak
    && d.asset == t.asset && d.timeframe == t.timeframe && d.marketId == t.marketId
    && "position_id" in d.metrics
    && var p := d.metrics["position_id"];
       && p != "" && d.conditionId == home(p).1
       && t.TokenOf(home(p).0) == Some((d.tokenId, d.side)) && t.resolve(d.tokenId) == home(p).0
       && forall i | 0 <= i < |cache| :: !LiveExit(cache[i], p)
  }

  lemma DecideIsExitFor(policy: Policy, home: Home, cache: seq<CacheOrder>, t: Tick, q: CachePosition)
    requires Homed(home, cache, t) && ExitsAtHome(home, cache) && q in t.positions
    requires PositionViewOf(q, cache, t.View()).Some?
    requires PositionViewOf(q, cache, t.View()).value.conditionId == t.conditionId
    ensures
      var d := Decide(policy, t, StateAt(cache, t), PositionViewOf(q, cache, t.View()).value);
      d.Some? ==> ExitFor(home, cache, t, d.value)
  {
    var p := PositionViewOf(q, cache, t.View()).value;
    if Decide(policy, t, StateAt(cache, t), p).Some? {
      assert home(p.positionId) == (p.instrumentId, t.conditionId);
      UnseenHasNoExit(home, cache, t, p);
    }
  }

  /** The instrument has a condition, which is empty only where the market's is. */
  predicate CatalogKnows(t: Tick, instrumentId: string) {
    t.identity(instrumentId).Some? && (t.conditionId == "" ==> t.identity(instrumentId).value == "")
  }

  /** At home a live exit of the position would be seen. */
  lemma UnseenHasNoExit(home: Home, cache: seq<CacheOrder>, t: Tick, p: PositionView)
    requires ExitsAtHome(home, cache) && p.positionId != "" && home(p.positionId) == (p.instrumentId, t.conditionId)
    requires CatalogKnows(t, p.instrumentId) && !HasExitOrder(OrderViews(cache, t.View()), p.positionId)
    ensures forall i | 0 <= i < |cache| :: !LiveExit(cache[i], p.positionId)
  {
    ExitOrderVisibleExactly(cache, t.View(), p.positionId);
    forall i | 0 <= i < |cache| ensures !LiveExit(cache[i], p.positionId) {
      HomeExitCovered(home, cache, t, p, i);
    }
  }

  lemma HomeExitCovered(home: Home, cache: seq<CacheOrder>, t: Tick, p: PositionView, i: nat)
    requires ExitsAtHome(home, cache) && home(p.positionId) == (p.instrumentId, t.conditionId) && i < |cache|
    requires CatalogKnows(t, p.instrumentId)
    ensures LiveExit(cache[i], p.positionId) ==>
      OrderViewOf(cache[i], t.View()).Some? && t.View().Covers(OrderViewOf(cache[i], t.View()).value.conditionId)
  {
    if LiveExit(cache[i], p.positionId) {
      assert Get(ParseTags(cache[i].tags), "condition_id") == Some(t.conditionId);
    }
  }

  lemma {:induction false} DecisionsAreExits(policy: Policy, home: Home, cache: seq<CacheOrder>, t: Tick,
                                             ps: seq<PositionView>)
    requires Homed(home, cache, t) && ExitsAtHome(home, cache)
    requires forall p | p in ps :: p in PositionViews(t.positions, cache, t.View())
    ensures forall d | d in Decisions(policy, t, StateAt(cache, t), ps) :: ExitFor(home, cache, t, d)
  {
    if ps != [] {
      DecisionsAreExits(policy, home, cache, t, ps[..|ps| - 1]);
      var p := ps[|ps| - 1];
      assert p in ps;
      if p.conditionId == t.conditionId {
        PositionViewsAreViews(t.positions, cache, t.View(), p);
        var q :| q in t.positions && PositionViewOf(q, cache, t.View()) == Some(p);
        DecideIsExitFor(policy, home, cache, t, q);
      }
    }
  }

  lemma {:induction false} SubmittedAreDistinct(ds: seq<Decision>, inFlight: set<string>, accepts: Decision -> bool)
    ensures
      var s := Submitted(ds, inFlight, accepts);
      && (forall d | d in s :: d in ds && d.DedupeKey() !in inFlight)
      && (forall i, j | 0 <= i < j < |s| :: s[i].DedupeKey() != s[j].DedupeKey())
  {
    if ds != [] {
      var isNew := accepts(ds[0]) && ds[0].DedupeKey() !in inFlight;
      var rest := Submitted(ds[1..], if isNew then inFlight + {ds[0].DedupeKey()} else inFlight, accepts);
      SubmittedAreDistinct(ds[1..], if isNew then inFlight + {ds[0].DedupeKey()} else inFlight, accepts);
      assert forall i | 0 <= i < |rest| :: rest[i] in rest;
    }
  }

  /** A submitted exit claims its own position and no other. */
  lemma SubmittedExitClaims(home: Home, cache: seq<CacheOrder>, t: Tick, d: Decision, rank: int)
    requires ExitFor(home, cache, t, d) && IsPrinting(t.printer(d), d)
    ensures
      var o := OrderOf(d, t, rank);
      && o.Live() && ClaimsOnly(o, d.metrics["position_id"])
      && o.instrumentId == home(d.metrics["position_id"]).0
      && Get(ParseTags(o.tags), "condition_id") == Some(d.conditionId)
  {
    PrintingParses(t.printer(d), d);
    TrueIsTruthy();
    ExitTags(d);
  }

  lemma ExitTags(d: Decision)
    requires d.ReduceOnly() && "position_id" in d.metrics && d.metrics["position_id"] != ""
    ensures
      var tags := BuildOrderTags(d);
      && Get(tags, "strategy") == Some(d.strategy) && Get(tags, "condition_id") == Some(d.conditionId)
      && Get(tags, "reduce_only") == Some("true") && Get(tags, "position_id") == Some(d.metrics["position_id"])
  {
    TagsSay(d);
  }

  function PositionOf(d: Decision): string {
    if "position_id" in d.metrics then d.metrics["position_id"] else ""
  }

  function Closing(ds: seq<Decision>): (ids: seq<string>)
    ensures |ids| == |ds| && forall n | 0 <= n < |ds| :: ids[n] == PositionOf(ds[n])
  {
    seq(|ds|, n requires 0 <= n < |ds| => PositionOf(ds[n]))
  }

  /** A live exit of one position, at home. */
  ghost predicate ExitOrderOf(o: CacheOrder, positionId: string, home: Home) {
    && o.Live() && ClaimsOnly(o, positionId) && positionId != ""
    && Get(ParseTags(o.tags), "position_id") == Some(positionId)
    && o.instrumentId == home(positionId).0 && Get(ParseTags(o.tags), "condition_id") == Some(home(positionId).1)
  }

  ghost predicate AllExits(news: seq<CacheOrder>, ids: seq<string>, home: Home) {
    |news| == |ids| && (forall n | 0 <= n < |ids| :: ExitOrderOf(news[n], ids[n], home))
  }

  /** One order each for different positions. */
  ghost predicate NewExits(news: seq<CacheOrder>, ids: seq<string>, home: Home) {
    && AllExits(news, ids, home)
    && (forall m, n | 0 <= m < n < |ids| :: ids[m] != ids[n])
  }

  ghost predicate NoneLive(cache: seq<CacheOrder>, ids: seq<string>) {
    forall i, p | 0 <= i < |cache| && p in ids :: !LiveExit(cache[i], p)
  }

  lemma SubmittedIsExit(home: Home, cache: seq<CacheOrder>, t: Tick, d: Decision, rank: int)
    requires ExitFor(home, cache, t, d) && IsPrinting(t.printer(d), d)
    ensures ExitOrderOf(OrderOf(d, t, rank), PositionOf(d), home)
  {
    SubmittedExitClaims(home, cache, t, d, rank);
    assert Claims(OrderOf(d, t, rank), PositionOf(d));
  }

  /** A round adds one exit each for different positions, none of which had one. */
  lemma RoundAdds(policy: Policy, home: Home, cache: seq<CacheOrder>, t: Tick)
    requires ExitsAtHome(home, cache) && Homed(home, cache, t) && Prints(t.printer)
    ensures
      var s := SubmittedAt(policy, cache, t);
      NewExits(NewOrders(s, t), Closing(s), home) && NoneLive(cache, Closing(s))
  {
    RoundDecides(policy, home, cache, t);
    AllAreExits(home, cache, t, SubmittedAt(policy, cache, t));
  }

  lemma RoundDecides(policy: Policy, home: Home, cache: seq<CacheOrder>, t: Tick)
    requires ExitsAtHome(home, cache) && Homed(home, cache, t)
    ensures
      var s := SubmittedAt(policy, cache, t);
      && (forall d | d in s :: ExitFor(home, cache, t, d))
      && (forall i, j | 0 <= i < j < |s| :: s[i].DedupeKey() != s[j].DedupeKey())
  {
    var trading, ps := StateAt(cache, t), PositionViews(t.positions, cache, t.View());
    var ds, inFlight := Decisions(policy, t, trading, ps), KeysInFlight(trading.orders);
    DecisionsAreExits(policy, home, cache, t, ps);
    SubmittedAreExits(home, cache, t, ds, inFlight);
    assert SubmittedAt(policy, cache, t) == Submitted(ds, inFlight, t.accepts);
  }

  lemma SubmittedAreExits(home: Home, cache: seq<CacheOrder>, t: Tick, ds: seq<Decision>, inFlight: set<string>)
    requires forall d | d in ds :: ExitFor(home, cache, t, d)
    ensures
      var s := Submitted(ds, inFlight, t.accepts);
      && (forall d | d in s :: ExitFor(home, cache, t, d))
      && (forall i, j | 0 <= i < j < |s| :: s[i].DedupeKey() != s[j].DedupeKey())
  {
    SubmittedAreDistinct(ds, inFlight, t.accepts);
  }

  lemma AllAreExits(home: Home, cache: seq<CacheOrder>, t: Tick, s: seq<Decision>)
    requires (forall d | d in s :: ExitFor(home, cache, t, d)) && Prints(t.printer)
    requires forall i, j | 0 <= i < j < |s| :: s[i].DedupeKey() != s[j].DedupeKey()
    ensures NewExits(NewOrders(s, t), Closing(s), home) && NoneLive(cache, Closing(s))
  {
    EachOrderIsExit(home, cache, t, s);
    OrdersAreExits(home, t, s, NewOrders(s, t), Closing(s));
    DifferentPositions(home, cache, t, s);
    NoneLiveForAll(home, cache, t, s);
  }

  lemma EachOrderIsExit(home: Home, cache: seq<CacheOrder>, t: Tick, s: seq<Decision>)
    requires (forall d | d in s :: ExitFor(home, cache, t, d)) && Prints(t.printer)
    ensures forall n | 0 <= n < |s| :: ExitOrderOf(OrderOf(s[n], t, t.rank(n)), PositionOf(s[n]), home)
  {
    forall n | 0 <= n < |s| ensures ExitOrderOf(OrderOf(s[n], t, t.rank(n)), PositionOf(s[n]), home) {
      var d := s[n];
      assert d in s;
      assert IsPrinting(t.printer(d), d);
      SubmittedIsExit(home, cache, t, d, t.rank(n));
    }
  }

  lemma OrdersAreExits(home: Home, t: Tick, s: seq<Decision>, news: seq<CacheOrder>, ids: seq<string>)
    requires news == NewOrders(s, t) && ids == Closing(s)
    requires forall n | 0 <= n < |s| :: ExitOrderOf(OrderOf(s[n], t, t.rank(n)), PositionOf(s[n]), home)
    ensures AllExits(news, ids, home)
  {
    forall n | 0 <= n < |ids| ensures ExitOrderOf(news[n], ids[n], home) {
      assert news[n] == OrderOf(s[n], t, t.rank(n)) && ids[n] == PositionOf(s[n]);
    }
  }

  lemma DifferentPositions(home: Home, cache: seq<CacheOrder>, t: Tick, s: seq<Decision>)
    requires forall d | d in s :: ExitFor(home, cache, t, d)
    requires forall i, j | 0 <= i < j < |s| :: s[i].DedupeKey() != s[j].DedupeKey()
    ensures forall m, n | 0 <= m < n < |s| :: Closing(s)[m] != Closing(s)[n]
  {
    forall m, n | 0 <= m < n < |s| ensures PositionOf(s[m]) != PositionOf(s[n]) {
      var d, e := s[m], s[n];
      assert d in s && e in s;
      SameExitSameKey(home, cache, t, d, e);
    }
  }

  lemma NoneLiveForAll(home: Home, cache: seq<CacheOrder>, t: Tick, s: seq<Decision>)
    requires forall d | d in s :: ExitFor(home, cache, t, d)
    ensures NoneLive(cache, Closing(s))
  {
    forall i, p | 0 <= i < |cache| && p in Closing(s) ensures !LiveExit(cache[i], p) {
      var n :| 0 <= n < |s| && Closing(s)[n] == p;
      assert s[n] in s;
      NoneLiveFor(home, cache, t, s[n]);
    }
  }

  lemma NoneLiveFor(home: Home, cache: seq<CacheOrder>, t: Tick, d: Decision)
    requires ExitFor(home, cache, t, d)
    ensures forall i | 0 <= i < |cache| :: !LiveExit(cache[i], PositionOf(d))
  {
  }

  lemma AppendKeepsSingle(home: Home, cache: seq<CacheOrder>, news: seq<CacheOrder>, ids: seq<string>)
    requires SingleExits(cache) && ExitsAtHome(home, cache) && NewExits(news, ids, home) && NoneLive(cache, ids)
    ensures SingleExits(cache + news) && ExitsAtHome(home, cache + news)
  {
    var all := cache + news;
    forall i, p | 0 <= i < |all| && LiveExit(all[i], p)
      ensures all[i].instrumentId == home(p).0 && Get(ParseTags(all[i].tags), "condition_id") == Some(home(p).1)
    {
      if |cache| <= i {
        assert ExitOrderOf(news[i - |cache|], ids[i - |cache|], home);
      }
    }
    forall i, j, p | 0 <= i < j < |all| && LiveExit(all[i], p) ensures !LiveExit(all[j], p) {
      if |cache| <= j {
        assert ExitOrderOf(news[j - |cache|], ids[j - |cache|], home) && ids[j - |cache|] in ids;
        if |cache| <= i {
          assert ExitOrderOf(news[i - |cache|], ids[i - |cache|], home);
        }
      }
    }
  }

  lemma EvaluateKeepsSingle(policy: Policy, home: Home, cache: seq<CacheOrder>, t: Tick)
    requires SingleExits(cache) && ExitsAtHome(home, cache) && Homed(home, cache, t) && Prints(t.printer)
    ensures SingleExits(Evaluate(policy, cache, t)) && ExitsAtHome(home, Evaluate(policy, cache, t))
  {
    var s := SubmittedAt(policy, cache, t);
    RoundAdds(policy, home, cache, t);
    AppendKeepsSingle(home, cache, NewOrders(s, t), Closing(s));
  }

  lemma SameExitSameKey(home: Home, cache: seq<CacheOrder>, t: Tick, d: Decision, e: Decision)
    requires ExitFor(home, cache, t, d) && ExitFor(home, cache, t, e)
    ensures PositionOf(d) == PositionOf(e) ==> d.DedupeKey() == e.DedupeKey()
  {
  }

  /** Every live exit was there before, under some order of the positions in the cache. */
  lemma FewerExits(home: Home, cache: seq<CacheOrder>, cache': seq<CacheOrder>, was: seq<nat>)
    requires SingleExits(cache) && ExitsAtHome(home, cache) && |was| == |cache'|
    requires forall i | 0 <= i < |was| :: was[i] < |cache|
    requires forall i, j | 0 <= i < j < |was| :: was[i] < was[j]
    requires forall i | 0 <= i < |cache'| && cache'[i].Live() ::
      var o := cache[was[i]]; o.Live() && o.tags == cache'[i].tags && o.instrumentId == cache'[i].instrumentId
    ensures SingleExits(cache') && ExitsAtHome(home, cache')
  {
    forall i, p | 0 <= i < |cache'| && LiveExit(cache'[i], p) ensures LiveExit(cache[was[i]], p) {
    }
    forall i, j, p | 0 <= i < j < |cache'| && LiveExit(cache'[i], p) ensures !LiveExit(cache'[j], p) {
      assert was[i] < was[j] && LiveExit(cache[was[i]], p);
    }
  }

  lemma StepKeepsSingle(policy: Policy, home: Home, cache: seq<CacheOrder>, e: Event)
    requires SingleExits(cache) && ExitsAtHome(home, cache) && Legal(home, cache, e)
    ensures SingleExits(Step(policy, cache, e)) && ExitsAtHome(home, Step(policy, cache, e))
  {
    match e {
      case EvaluateExits(t) => EvaluateKeepsSingle(policy, home, cache, t);
      case VenueUpdate(_, _, _, _, _) => FewerExits(home, cache, Step(policy, cache, e), seq(|cache|, i => i));
      case PlaceOther(o) => OtherKeepsSingle(home, cache, o);
      case Purge(n) =>
        FewerExits(home, cache, Step(policy, cache, e), seq(|cache| - 1, i => if i < n then i else i + 1));
    }
  }

  lemma OtherKeepsSingle(home: Home, cache: seq<CacheOrder>, o: CacheOrder)
    requires SingleExits(cache) && ExitsAtHome(home, cache) && forall p :: !Claims(o, p)
    ensures SingleExits(cache + [o]) && ExitsAtHome(home, cache + [o])
  {
    assert forall i | 0 <= i < |cache| :: (cache + [o])[i] == cache[i];
  }

  /** In every run, no position ever has two live exits that name it. */
  lemma {:induction false} SingleExitInFlight(policy: Policy, home: Home, cache: seq<CacheOrder>, es: seq<Event>)
    requires SingleExits(cache) && ExitsAtHome(home, cache) && LegalRun(home, policy, cache, es)
    ensures SingleExits(Run(policy, cache, es)) && ExitsAtHome(home, Run(policy, cache, es))
    decreases es
  {
    if es != [] {
      StepKeepsSingle(policy, home, cache, es[0]);
      SingleExitInFlight(policy, home, Step(policy, cache, es[0]), es[1..]);
    }
  }

  // ---------- which other orders claim nothing ----------

  /** Entries never claim a position, and neither does a reduce-only decision whose metrics name none. */
  lemma OtherDecisionsClaimNothing(d: Decision, t: Tick, rank: int, p: string)
    requires (!d.ReduceOnly() || "position_id" !in d.metrics) && IsPrinting(t.printer(d), d)
    ensures !Claims(OrderOf(d, t, rank), p)
  {
    PrintingParses(t.printer(d), d);
    NoPositionTag(d);
  }

  lemma NoPositionTag(d: Decision)
    requires !d.ReduceOnly() || "position_id" !in d.metrics
    ensures "position_id" !in BuildOrderTags(d)
  {
    TagsSay(d);
    assert Get(BuildOrderTags(d), "position_id") == None;
  }

  // ---------- orders the policy cannot see ----------

  /** The tags name no strategy. */
  predicate Unnamed(o: CacheOrder) {
    OrElse(Get(ParseTags(o.tags), "strategy"), "") == ""
  }

  /** An order has no view in any trading state exactly when its tags name no strategy. */
  lemma InvisibleExactly(o: CacheOrder)
    ensures (forall lens :: OrderViewOf(o, lens).None?) <==> Unnamed(o)
  {
    assert OrderViewOf(o, Lens(_ => Some("c"), None, _ => None)).None? <==> Unnamed(o);
  }

  lemma UnnamedUnseen(a: seq<CacheOrder>, o: CacheOrder, b: seq<CacheOrder>, lens: Lens)
    requires Unnamed(o)
    ensures OrderViews(a + [o] + b, lens) == OrderViews(a + b, lens)
  {
    ViewsJoin(a + [o], b, lens);
    ViewsJoin(a, [o], lens);
    ViewsJoin(a, b, lens);
    assert OrderViews([o], lens) == [] by {
      assert [o][..0] == [];
    }
  }

  /** Wherever such an order lies in the cache, every round submits exactly what it would submit without it. */
  lemma UnnamedChangesNothing(policy: Policy, a: seq<CacheOrder>, o: CacheOrder, b: seq<CacheOrder>, t: Tick)
    requires Unnamed(o)
    ensures SubmittedAt(policy, a + [o] + b, t) == SubmittedAt(policy, a + b, t)
    ensures Evaluate(policy, a + [o] + b, t) == a + [o] + b + Evaluate(policy, a + b, t)[|a + b|..]
  {
    UnnamedUnseen(a, o, b, t.View());
    NoEntryUnseenAll(t.positions, a, o, b, t.View());
    assert StateAt(a + [o] + b, t) == StateAt(a + b, t);
  }

  /** The tags name the position, whatever else they say. */
  predicate LiveNaming(o: CacheOrder, positionId: string) {
    o.Live() && positionId != "" && Get(ParseTags(o.tags), "position_id") == Some(positionId)
  }

  ghost predicate SingleNamings(cache: seq<CacheOrder>) {
    forall i, j, p | 0 <= i < j < |cache| && LiveNaming(cache[i], p) :: !LiveNaming(cache[j], p)
  }

  ghost predicate IsNamed(cache: seq<CacheOrder>, positionId: string) {
    exists i :: 0 <= i < |cache| && LiveNaming(cache[i], positionId)
  }

  ghost predicate NewNamings(news: seq<CacheOrder>, ids: seq<string>) {
    && |news| == |ids| && (forall n | 0 <= n < |ids| :: forall p :: LiveNaming(news[n], p) <==> p == ids[n])
    && (forall m, n | 0 <= m < n < |ids| :: ids[m] != ids[n])
  }

  lemma ExitsName(news: seq<CacheOrder>, ids: seq<string>, home: Home)
    requires NewExits(news, ids, home)
    ensures NewNamings(news, ids)
  {
    forall n | 0 <= n < |ids| ensures forall p :: LiveNaming(news[n], p) <==> p == ids[n] {
      assert ExitOrderOf(news[n], ids[n], home);
    }
  }

  lemma SecondNamingBreaks(cache: seq<CacheOrder>, news: seq<CacheOrder>, ids: seq<string>, p: string)
    requires NewNamings(news, ids) && p in ids && IsNamed(cache, p)
    ensures !SingleNamings(cache + news)
  {
    var all := cache + news;
    var n :| 0 <= n < |ids| && ids[n] == p;
    var i :| 0 <= i < |cache| && LiveNaming(cache[i], p);
    assert all[i] == cache[i] && all[|cache| + n] == news[n];
    assert LiveNaming(news[n], p);
  }

  lemma FirstNamingsKeep(cache: seq<CacheOrder>, news: seq<CacheOrder>, ids: seq<string>)
    requires SingleNamings(cache) && NewNamings(news, ids) && forall p | p in ids :: !IsNamed(cache, p)
    ensures SingleNamings(cache + news)
  {
    var all := cache + news;
    forall i, j, p | 0 <= i < j < |all| && LiveNaming(all[i], p) ensures !LiveNaming(all[j], p) {
      if |cache| <= j {
        var n := j - |cache|;
        assert all[j] == news[n] && ids[n] in ids;
        if |cache| <= i {
          assert all[i] == news[i - |cache|];
        } else {
          assert all[i] == cache[i] && IsNamed(cache, p);
        }
      }
    }
  }

  /** Counting every live order that names a position, seen or not: a round adds a second one if and only if it
      submits an exit for a position that some live order already names; and that order is never an exit the policy
      can see. */
  lemma SecondOrderExactly(policy: Policy, home: Home, cache: seq<CacheOrder>, t: Tick)
    requires SingleNamings(cache) && ExitsAtHome(home, cache) && Homed(home, cache, t) && Prints(t.printer)
    ensures
      var ids := Closing(SubmittedAt(policy, cache, t));
      && NoneLive(cache, ids)
      && (SingleNamings(Evaluate(policy, cache, t)) <==> forall p | p in ids :: !IsNamed(cache, p))
  {
    var s := SubmittedAt(policy, cache, t);
    RoundAdds(policy, home, cache, t);
    ExitsName(NewOrders(s, t), Closing(s), home);
    if forall p | p in Closing(s) :: !IsNamed(cache, p) {
      FirstNamingsKeep(cache, NewOrders(s, t), Closing(s));
    } else {
      var p :| p in Closing(s) && IsNamed(cache, p);
      SecondNamingBreaks(cache, NewOrders(s, t), Closing(s), p);
    }
  }

  /** The close requested at resolution. */
  function ResolutionClose(instrumentId: string, positionId: string, rank: int): CacheOrder {
    CacheOrder(instrumentId,
    ["resolution_settlement_close=true", "exit_reason=RESOLUTION", "position_id=" + positionId],
               true, false, rank, None, 0)
  }

  /** It names its position but no strategy, so for the policy it does not exist. */
  lemma ResolutionCloseIsInvisible(policy: Policy, a: seq<CacheOrder>, b: seq<CacheOrder>, t: Tick,
                                   instrumentId: string, positionId: string, rank: int)
    ensures
      var o := ResolutionClose(instrumentId, positionId, rank);
      && (positionId != "" ==> LiveNaming(o, positionId)) && (forall p :: !Claims(o, p))
      && Evaluate(policy, a + [o] + b, t) == a + [o] + b + Evaluate(policy, a + b, t)[|a + b|..]
  {
    ResolutionTags(positionId);
    UnnamedChangesNothing(policy, a, ResolutionClose(instrumentId, positionId, rank), b, t);
  }

  /** In every cache: where a round would submit an exit for the position without the close, it submits it with the
      close too, and two live orders then name the position. */
  lemma CloseIsDoubled(policy: Policy, home: Home, a: seq<CacheOrder>, b: seq<CacheOrder>, t: Tick,
                       instrumentId: string, positionId: string, rank: int)
    requires ExitsAtHome(home, a + b) && Homed(home, a + b, t) && Prints(t.printer)
    requires positionId in Closing(SubmittedAt(policy, a + b, t))
    ensures
      var cache := a + [ResolutionClose(instrumentId, positionId, rank)] + b;
      SubmittedAt(policy, cache, t) == SubmittedAt(policy, a + b, t) && !SingleNamings(Evaluate(policy, cache, t))
  {
    var o := ResolutionClose(instrumentId, positionId, rank);
    var s := SubmittedAt(policy, a + b, t);
    ResolutionTags(positionId);
    UnnamedChangesNothing(policy, a, o, b, t);
    RoundAdds(policy, home, a + b, t);
    ExitsName(NewOrders(s, t), Closing(s), home);
    NamedByClose(a, o, b, positionId, Closing(s), NewOrders(s, t), home);
    SecondNamingBreaks(a + [o] + b, NewOrders(s, t), Closing(s), positionId);
  }

  lemma NamedByClose(a: seq<CacheOrder>, o: CacheOrder, b: seq<CacheOrder>, positionId: string, ids: seq<string>,
                     news: seq<CacheOrder>, home: Home)
    requires NewExits(news, ids, home) && positionId in ids
    requires o.Live() && Get(ParseTags(o.tags), "position_id") == Some(positionId)
    ensures IsNamed(a + [o] + b, positionId)
  {
    var n :| 0 <= n < |ids| && ids[n] == positionId;
    assert ExitOrderOf(news[n], ids[n], home);
    assert (a + [o] + b)[|a|] == o;
  }

  const POLICY := Policy(true, true, true, 0.8, 0.1, 60)
  /** An entry whose tags name a strategy and nothing else. */
  function PlainEntry(instrumentId: string): CacheOrder {
    CacheOrder(instrumentId, ["strategy=alpha"], false, false, 0, None, 0)
  }

  lemma PlainEntryIs(instrumentId: string)
    ensures IsEntry(PlainEntry(instrumentId)) && ParseTags(PlainEntry(instrumentId).tags) == map["strategy" := "alpha"]
  {
    assert "strategy=alpha" == PrintTag("strategy", "alpha");
    ParsePrinted(map[], "strategy", "alpha");
    assert ["strategy=alpha"][..0] == [];
  }

  /** A position whose linked orders are one such entry. */
  function Holding(positionId: string, instrumentId: string, openedAt: Option<int>): CachePosition {
    CachePosition(positionId, instrumentId, [PlainEntry(instrumentId)], 1.0, 0.5, openedAt)
  }

  lemma HoldingView(positionId: string, instrumentId: string, openedAt: Option<int>, orders: seq<CacheOrder>,
                    lens: Lens)
    requires positionId != "" && lens.identity(instrumentId).Some?
    ensures PositionViewOf(Holding(positionId, instrumentId, openedAt), orders, lens) ==
            Some(PositionView(positionId, instrumentId, "alpha", lens.identity(instrumentId).value, 1.0, 0.5, openedAt))
  {
    HoldingTags(positionId, instrumentId, openedAt, orders);
    OneTagRead();
  }

  lemma OneTagRead()
    ensures
      var tags := map["strategy" := "alpha"];
      OrElse(Get(tags, "strategy"), "") == "alpha" && Get(tags, "condition_id") == None
  {
  }

  lemma HoldingTags(positionId: string, instrumentId: string, openedAt: Option<int>, orders: seq<CacheOrder>)
    ensures LatestEntryTags(Holding(positionId, instrumentId, openedAt), orders) == map["strategy" := "alpha"]
  {
    PlainEntryIs(instrumentId);
    SoleEntry(PlainEntry(instrumentId));
  }

  lemma SoleEntry(o: CacheOrder)
    requires IsEntry(o)
    ensures LatestEntry([o]) == Some(o)
  {
    assert [o][1..] == [];
  }

  const HOLDING := Holding("p", "u", None)
  const HELD := PositionView("p", "u", "alpha", "c", 1.0, 0.5, None)

  function OneTick(printer: Decision -> seq<string>): Tick {
    Tick("c", "BTC", "5m", "m", "s", None, None, "u", "", token => token, _ => Some("c"), false,
         [HOLDING], _ => Some(0.9), 0, _ => None, _ => "", _ => "", "x", n => n + 1, _ => true, printer)
  }

  /** Such a round exists. */
  lemma CloseAndExitBothLive(printer: Decision -> seq<string>)
    requires Prints(printer)
    ensures !SingleNamings(Evaluate(POLICY, [ResolutionClose("u", "p", 0)], OneTick(printer)))
  {
    var none: seq<CacheOrder> := [];
    var home: Home := _ => ("u", "c");
    var t := OneTick(printer);
    OneState(printer);
    OneExit(printer);
    assert none + none == none && none + [ResolutionClose("u", "p", 0)] + none == [ResolutionClose("u", "p", 0)];
    assert Homed(home, none, t) && ExitsAtHome(home, none);
    assert Closing(SubmittedAt(POLICY, none, t))[0] == "p";
    CloseIsDoubled(POLICY, home, none, none, t, "u", "p", 0);
  }

  lemma OneState(printer: Decision -> seq<string>)
    ensures PositionViewOf(HOLDING, [], OneTick(printer).View()) == Some(HELD)
    ensures StateAt([], OneTick(printer)) == TradingState([], [HELD])
  {
    var lens := OneTick(printer).View();
    HoldingView("p", "u", None, [], lens);
    SoleView(HOLDING, [], lens);
  }

  lemma SoleView(p: CachePosition, orders: seq<CacheOrder>, lens: Lens)
    requires PositionViewOf(p, orders, lens).Some? && lens.Covers(PositionViewOf(p, orders, lens).value.conditionId)
    ensures PositionViews([p], orders, lens) == [PositionViewOf(p, orders, lens).value]
  {
    assert [p][..0] == [];
  }

  lemma SoleDecision(policy: Policy, t: Tick, trading: TradingState, p: PositionView)
    requires p.conditionId == t.conditionId && Decide(policy, t, trading, p).Some?
    requires t.accepts(Decide(policy, t, trading, p).value)
    ensures Submitted(Decisions(policy, t, trading, [p]), {}, t.accepts) == [Decide(policy, t, trading, p).value]
  {
    var d := Decide(policy, t, trading, p).value;
    assert [p][..0] == [] && [d][1..] == [];
    assert Decisions(policy, t, trading, [p]) == [d];
  }

  lemma OneExit(printer: Decision -> seq<string>)
    ensures
      var s := SubmittedAt(POLICY, [], OneTick(printer));
      |s| == 1 && PositionOf(s[0]) == "p"
  {
    var t, trading := OneTick(printer), TradingState([], [HELD]);
    OneState(printer);
    OneDecision(printer);
    assert KeysInFlight([]) == {};
    SoleDecision(POLICY, t, trading, HELD);
  }

  lemma OneDecision(printer: Decision -> seq<string>)
    ensures
      var d := Decide(POLICY, OneTick(printer), TradingState([], [HELD]), HELD);
      d.Some? && PositionOf(d.value) == "p"
  {
    var t, trading := OneTick(printer), TradingState([], [HELD]);
    assert t.TokenOf("u") == Some(("u", Up));
    assert Thresholds(trading, "p") == Stamp(None, None);
    assert Due(POLICY, t, trading, HELD, 0.9) == Some("TAKE_PROFIT");
  }

  lemma ResolutionTags(positionId: string)
    ensures
      var position := "position_id=" + positionId;
      var tags := ParseTags(["resolution_settlement_close=true", "exit_reason=RESOLUTION", position]);
      "strategy" !in tags && Get(tags, "position_id") == Some(positionId)
  {
    var k1, k2, k3 := "resolution_settlement_close", "exit_reason", "position_id";
    ResolutionTexts(positionId);
    ParseThree(k1, "true", k2, "RESOLUTION", k3, positionId);
    assert "strategy" != k1 && "strategy" != k2 && "strategy" != k3;
  }

  lemma ResolutionTexts(positionId: string)
    ensures "resolution_settlement_close=true" == PrintTag("resolution_settlement_close", "true")
    ensures "exit_reason=RESOLUTION" == PrintTag("exit_reason", "RESOLUTION")
    ensures "position_id=" + positionId == PrintTag("position_id", positionId)
    ensures Plain("resolution_settlement_close") && Plain("exit_reason") && Plain("position_id")
  {
  }

  lemma ParseThree(k1: string, v1: string, k2: string, v2: string, k3: string, v3: string)
    requires Plain(k1) && Plain(k2) && Plain(k3)
    ensures ParseTags([PrintTag(k1, v1), PrintTag(k2, v2), PrintTag(k3, v3)]) == map[k1 := v1][k2 := v2][k3 := v3]
  {
    var t1, t2, t3 := PrintTag(k1, v1), PrintTag(k2, v2), PrintTag(k3, v3);
    ParsePrinted(map[], k1, v1);
    ParsePrinted(map[k1 := v1], k2, v2);
    ParsePrinted(map[k1 := v1][k2 := v2], k3, v3);
    assert [t1, t2, t3][..2] == [t1, t2] && [t1, t2][..1] == [t1] && [t1][..0] == [];
    assert ParseTags([t1]) == map[k1 := v1];
    assert ParseTags([t1, t2]) == map[k1 := v1][k2 := v2];
  }
}

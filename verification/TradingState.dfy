/** The trading state: views of the cached orders and positions, and the two questions the exit policy asks them. */
module TradingState {
  import opened Options
  import opened Text
  import opened OrderTags

  // ---------- the cache ----------

  /** `rank` orders the client order ids as their texts are ordered; `tsEvent` is when the order was accepted or last
      changed, `tsLast` when it last changed (0 if that is unknown). */
  datatype CacheOrder = CacheOrder(
    instrumentId: string, tags: seq<string>, isOpen: bool, isInflight: bool, rank: int, tsEvent: Option<int>,
    tsLast: int)
  {
    predicate Live() {
      isOpen || isInflight
    }

    predicate ChangedBefore(o: CacheOrder) {
      tsLast < o.tsLast || (tsLast == o.tsLast && rank < o.rank)
    }
  }

  /** `linked` are the orders the cache links to the position; it may know none. */
  datatype CachePosition = CachePosition(
    positionId: string, instrumentId: string, linked: seq<CacheOrder>, quantity: real, averagePrice: real,
    openedAt: Option<int>)

  // ---------- views ----------

  /** The exit prices an entry order carries. */
  datatype Stamp = Stamp(takeProfit: Option<real>, stopLoss: Option<real>)
  {
    predicate Empty() {
      takeProfit.None? && stopLoss.None?
    }
  }

  datatype OrderView = OrderView(
    instrumentId: string, strategy: string, conditionId: string, positionId: Option<string>,
    reduceOnly: bool, live: bool, dedupeKey: Option<string>, rank: int, tsEvent: Option<int>, stamp: Stamp)
  {
    predicate IsBefore(o: OrderView) {
      if tsEvent == o.tsEvent then rank < o.rank
      else tsEvent.None? || (o.tsEvent.Some? && tsEvent.value < o.tsEvent.value)
    }
  }

  datatype PositionView = PositionView(
    positionId: string, instrumentId: string, strategy: string, conditionId: string,
    quantity: real, averagePrice: real, openedAt: Option<int>)

  /** What the cache is read with: which condition the catalog attributes an instrument to, if any; the condition that
      a shared snapshot is cut down to, if any; and how the text of a number is read. */
  datatype Lens = Lens(identity: string -> Option<string>, scope: Option<string>, read: string -> Option<real>)
  {
    predicate Covers(conditionId: string) {
      scope.Some? ==> conditionId == scope.value
    }

    function Number(text: Option<string>): Option<real> {
      if text.Some? then read(text.value) else None
    }
  }

  function OrElse(tag: Option<string>, other: string): string {
    if tag.Some? && tag.value != "" then tag.value else other
  }

  predicate Truthy(tag: Option<string>) {
    tag.Some? && Lower(Strip(tag.value)) in ["1", "true", "yes", "on"]
  }

  lemma TrueIsTruthy()
    ensures Truthy(Some("true"))
  {
    assert Strip("true") == "true";
    assert Lower("true") == "true";
  }

  /** Spaces and case do not matter; anything but these four words is no. */
  lemma TruthyTexts()
    ensures Truthy(Some(" Yes ")) && Truthy(Some("1")) && Truthy(Some("ON"))
    ensures !Truthy(Some("0")) && !Truthy(Some("no")) && !Truthy(Some("")) && !Truthy(None)
  {
    assert Strip(" Yes ") == "Yes" by {
      assert " Yes "[1..] == "Yes " && "Yes "[..3] == "Yes";
    }
    assert Lower("Yes") == "yes" && Lower("1") == "1" && Lower("ON") == "on";
    assert Lower("0") == "0" && Lower("no") == "no";
    assert Strip("1") == "1" && Strip("ON") == "ON" && Strip("0") == "0" && Strip("no") == "no";
  }

  function StampOf(tags: map<string, string>, lens: Lens): Stamp {
    Stamp(lens.Number(Get(tags, "exit_tp_price")), lens.Number(Get(tags, "exit_stop_price")))
  }

  function OrderViewOf(o: CacheOrder, lens: Lens): Option<OrderView> {
    var tags := ParseTags(o.tags);
    var condition := lens.identity(o.instrumentId);
    if condition.None? || OrElse(Get(tags, "strategy"), "") == "" then None
    else Some(OrderView(o.instrumentId, tags["strategy"], OrElse(Get(tags, "condition_id"), condition.value),
                        Get(tags, "position_id"), Truthy(Get(tags, "reduce_only")), o.Live(), Get(tags, "dedupe_key"),
                        o.rank, o.tsEvent, StampOf(tags, lens)))
  }

  /** A tag that is missing or empty gives way to the other text. */
  predicate TagOr(tag: Option<string>, other: string, text: string) {
    if tag == None || tag == Some("") then text == other else tag == Some(text)
  }

  /** An order has a view exactly if the catalog knows its instrument and its tags name a strategy, and the view repeats
      what order and tags say. */
  lemma ViewSays(o: CacheOrder, lens: Lens)
    ensures
      var tags, condition, view := ParseTags(o.tags), lens.identity(o.instrumentId), OrderViewOf(o, lens);
      && (view.Some? <==> condition.Some? && Get(tags, "strategy") != None && Get(tags, "strategy") != Some(""))
      && (view.Some? ==>
            var v := view.value;
            && (v.instrumentId, v.rank, v.tsEvent) == (o.instrumentId, o.rank, o.tsEvent)
            && Get(tags, "strategy") == Some(v.strategy) && v.live == (o.isOpen || o.isInflight)
            && TagOr(Get(tags, "condition_id"), condition.value, v.conditionId)
            && v.positionId == Get(tags, "position_id") && v.dedupeKey == Get(tags, "dedupe_key")
            && v.reduceOnly == Truthy(Get(tags, "reduce_only"))
            && v.stamp.takeProfit == (if "exit_tp_price" in tags then lens.read(tags["exit_tp_price"]) else None)
            && v.stamp.stopLoss == (if "exit_stop_price" in tags then lens.read(tags["exit_stop_price"]) else None))
  {
  }

  /** An order with a strategy that is not an exit. */
  predicate IsEntry(o: CacheOrder) {
    var tags := ParseTags(o.tags);
    OrElse(Get(tags, "strategy"), "") != "" && !Truthy(Get(tags, "reduce_only"))
  }

  function OnInstrument(orders: seq<CacheOrder>, instrumentId: string): seq<CacheOrder> {
    if orders == [] then []
    else (if orders[0].instrumentId == instrumentId then [orders[0]] else []) + OnInstrument(orders[1..], instrumentId)
  }

  /** The orders linked to a position, or else all those on its instrument. */
  function LinkedOrders(p: CachePosition, orders: seq<CacheOrder>): seq<CacheOrder> {
    if p.linked != [] then p.linked else OnInstrument(orders, p.instrumentId)
  }

  /** The entry that changed last, the first of them in case of a tie. */
  function LatestEntry(orders: seq<CacheOrder>): Option<CacheOrder> {
    if orders == [] then None
    else
      var rest := LatestEntry(orders[1..]);
      if IsEntry(orders[0]) && (rest.None? || !orders[0].ChangedBefore(rest.value)) then Some(orders[0]) else rest
  }

  function LatestEntryTags(p: CachePosition, orders: seq<CacheOrder>): map<string, string> {
    var entry := LatestEntry(LinkedOrders(p, orders));
    if entry.Some? then ParseTags(entry.value.tags) else map[]
  }

  function PositionViewOf(p: CachePosition, orders: seq<CacheOrder>, lens: Lens): Option<PositionView> {
    var tags := LatestEntryTags(p, orders);
    var condition, strategy := lens.identity(p.instrumentId), OrElse(Get(tags, "strategy"), "");
    if condition.None? || p.positionId == "" || strategy == "" || p.quantity <= 0.0 then None
    else Some(PositionView(p.positionId, p.instrumentId, strategy, OrElse(Get(tags, "condition_id"), condition.value),
                           p.quantity, p.averagePrice, p.openedAt))
  }

  /** The tags name a strategy and do not say that the order is an exit. */
  predicate TaggedEntry(o: CacheOrder) {
    var tags := ParseTags(o.tags);
    "strategy" in tags && tags["strategy"] != "" && !("reduce_only" in tags && Truthy(Some(tags["reduce_only"])))
  }

  /** The i-th order is the entry to go by: no entry changed later, among those that changed last none has a later
      client order id, and among equals it comes first. */
  ghost predicate IsLatestAt(orders: seq<CacheOrder>, i: nat)
    requires i < |orders|
  {
    && TaggedEntry(orders[i])
    && forall j | 0 <= j < |orders| && TaggedEntry(orders[j]) ::
         || orders[j].tsLast < orders[i].tsLast
         || (orders[j].tsLast == orders[i].tsLast
             && (orders[j].rank < orders[i].rank || (orders[j].rank == orders[i].rank && i <= j)))
  }

  lemma {:induction false} LatestEntryAt(orders: seq<CacheOrder>) returns (i: nat)
    ensures LatestEntry(orders).None? ==> forall o | o in orders :: !TaggedEntry(o)
    ensures LatestEntry(orders).Some? ==>
      i < |orders| && LatestEntry(orders) == Some(orders[i]) && IsLatestAt(orders, i)
  {
    i := 0;
    if orders != [] {
      var rest := orders[1..];
      assert orders == [orders[0]] + rest;
      assert TaggedEntry(orders[0]) == IsEntry(orders[0]);
      var k := LatestEntryAt(rest);
      if LatestEntry(rest).Some? {
        assert orders[k + 1] == rest[k];
        assert forall j | 1 <= j < |orders| :: orders[j] == rest[j - 1];
        i := if IsEntry(orders[0]) && !orders[0].ChangedBefore(rest[k]) then 0 else k + 1;
      }
    }
  }

  lemma LatestEntryIs(orders: seq<CacheOrder>)
    ensures LatestEntry(orders).None? <==> forall o | o in orders :: !IsEntry(o)
    ensures LatestEntry(orders).Some? ==>
      exists i :: 0 <= i < |orders| && LatestEntry(orders) == Some(orders[i]) && IsLatestAt(orders, i)
    ensures LatestEntry(orders).Some? ==> LatestEntry(orders).value in orders && IsEntry(LatestEntry(orders).value)
  {
    var i := LatestEntryAt(orders);
    assert forall o | o in orders :: TaggedEntry(o) == IsEntry(o);
  }

  /** A position has a view exactly if the catalog knows its instrument, it has an id and a size, and an order linked to
      it, or else any on its instrument, is an entry; strategy and condition are those of the latest such entry. */
  lemma PositionViewExactly(p: CachePosition, orders: seq<CacheOrder>, lens: Lens)
    ensures
      var linked, view := LinkedOrders(p, orders), PositionViewOf(p, orders, lens);
      && (forall o :: o in linked <==>
           if p.linked == [] then o in orders && o.instrumentId == p.instrumentId else o in p.linked)
      && (view.Some? <==>
           && lens.identity(p.instrumentId).Some? && p.positionId != "" && p.quantity > 0.0
           && exists o :: o in linked && TaggedEntry(o))
      && (view.Some? ==>
            var v := view.value;
            && (v.positionId, v.instrumentId, v.quantity, v.averagePrice, v.openedAt)
               == (p.positionId, p.instrumentId, p.quantity, p.averagePrice, p.openedAt)
            && exists i :: && 0 <= i < |linked| && IsLatestAt(linked, i)
                           && Get(ParseTags(linked[i].tags), "strategy") == Some(v.strategy)
                           && TagOr(Get(ParseTags(linked[i].tags), "condition_id"),
                                    lens.identity(p.instrumentId).value, v.conditionId))
  {
    OnInstrumentAre(orders, p.instrumentId);
    var linked := LinkedOrders(p, orders);
    LatestEntryIs(linked);
    assert forall o :: TaggedEntry(o) == IsEntry(o);
  }

  lemma {:induction false} LatestEntrySkips(a: seq<CacheOrder>, o: CacheOrder, b: seq<CacheOrder>)
    requires !IsEntry(o)
    ensures LatestEntry(a + [o] + b) == LatestEntry(a + b)
  {
    if a == [] {
      assert a + [o] + b == [o] + b && a + b == b;
      assert ([o] + b)[1..] == b;
    } else {
      LatestEntrySkips(a[1..], o, b);
      assert (a + [o] + b)[1..] == a[1..] + [o] + b && (a + b)[1..] == a[1..] + b;
    }
  }

  lemma {:induction false} OnInstrumentJoins(a: seq<CacheOrder>, b: seq<CacheOrder>, instrumentId: string)
    ensures OnInstrument(a + b, instrumentId) == OnInstrument(a, instrumentId) + OnInstrument(b, instrumentId)
  {
    if a == [] {
      assert a + b == b;
    } else {
      OnInstrumentJoins(a[1..], b, instrumentId);
      assert (a + b)[1..] == a[1..] + b;
      var first := if a[0].instrumentId == instrumentId then [a[0]] else [];
      Regrouped(first, OnInstrument(a[1..], instrumentId), OnInstrument(b, instrumentId));
    }
  }

  lemma {:induction false} OnInstrumentAre(orders: seq<CacheOrder>, instrumentId: string)
    ensures forall o :: o in OnInstrument(orders, instrumentId) <==> o in orders && o.instrumentId == instrumentId
  {
    if orders != [] {
      OnInstrumentAre(orders[1..], instrumentId);
      assert orders == [orders[0]] + orders[1..];
    }
  }

  lemma LatestEntryHere(orders: seq<CacheOrder>, a: seq<CacheOrder>, o: CacheOrder, b: seq<CacheOrder>, i: string)
    requires !IsEntry(o) && orders == a + b
    ensures LatestEntry(OnInstrument(a + [o] + b, i)) == LatestEntry(OnInstrument(orders, i))
  {
    OnInstrumentJoins(a + [o], b, i);
    OnInstrumentJoins(a, [o], i);
    OnInstrumentJoins(a, b, i);
    var x, y := OnInstrument(a, i), OnInstrument(b, i);
    assert [o][1..] == [];
    if o.instrumentId == i {
      assert OnInstrument([o], i) == [o];
      LatestEntrySkips(x, o, y);
    } else {
      assert OnInstrument([o], i) == [] && x + [] + y == x + y;
    }
  }

  /** An order that is no entry changes no position's view. */
  lemma NoEntryUnseen(p: CachePosition, a: seq<CacheOrder>, o: CacheOrder, b: seq<CacheOrder>, lens: Lens)
    requires !IsEntry(o)
    ensures PositionViewOf(p, a + [o] + b, lens) == PositionViewOf(p, a + b, lens)
  {
    LatestEntryHere(a + b, a, o, b, p.instrumentId);
    assert LatestEntryTags(p, a + [o] + b) == LatestEntryTags(p, a + b);
  }

  function OrderViews(cache: seq<CacheOrder>, lens: Lens): seq<OrderView> {
    if cache == [] then []
    else
      var rest, view := OrderViews(cache[..|cache| - 1], lens), OrderViewOf(cache[|cache| - 1], lens);
      if view.Some? && lens.Covers(view.value.conditionId) then rest + [view.value] else rest
  }

  function PositionViews(positions: seq<CachePosition>, orders: seq<CacheOrder>, lens: Lens): seq<PositionView> {
    if positions == [] then []
    else
      var n := |positions| - 1;
      var rest, view := PositionViews(positions[..n], orders, lens), PositionViewOf(positions[n], orders, lens);
      if view.Some? && lens.Covers(view.value.conditionId) then rest + [view.value] else rest
  }

  datatype TradingState = TradingState(orders: seq<OrderView>, positions: seq<PositionView>)

  function StateOf(cache: seq<CacheOrder>, positions: seq<CachePosition>, lens: Lens): TradingState {
    TradingState(OrderViews(cache, lens), PositionViews(positions, cache, lens))
  }

  ghost predicate Increasing(at: seq<nat>) {
    forall j, k | 0 <= j < k < |at| :: at[j] < at[k]
  }

  predicate InScope(lens: Lens, conditionId: string) {
    lens.scope == None || lens.scope == Some(conditionId)
  }

  /** `at` lists the orders that have a view in scope, in their order. */
  ghost predicate OrdersSeenAt(cache: seq<CacheOrder>, lens: Lens, views: seq<OrderView>, at: seq<nat>) {
    && |at| == |views| && Increasing(at)
    && (forall k | 0 <= k < |at| :: at[k] < |cache| && OrderViewOf(cache[at[k]], lens) == Some(views[k]))
    && (forall n | 0 <= n < |cache| :: n in at <==>
         OrderViewOf(cache[n], lens).Some? && InScope(lens, OrderViewOf(cache[n], lens).value.conditionId))
  }

  ghost predicate PositionsSeenAt(positions: seq<CachePosition>, orders: seq<CacheOrder>, lens: Lens,
                                  views: seq<PositionView>, at: seq<nat>) {
    && |at| == |views| && Increasing(at)
    && (forall k | 0 <= k < |at| ::
         at[k] < |positions| && PositionViewOf(positions[at[k]], orders, lens) == Some(views[k]))
    && (forall n | 0 <= n < |positions| :: n in at <==>
         && PositionViewOf(positions[n], orders, lens).Some?
         && InScope(lens, PositionViewOf(positions[n], orders, lens).value.conditionId))
  }

  lemma OneMoreOrder(cache: seq<CacheOrder>, o: CacheOrder, lens: Lens, views: seq<OrderView>, at: seq<nat>)
    requires OrdersSeenAt(cache, lens, views, at)
    ensures
      var view := OrderViewOf(o, lens);
      if view.Some? && InScope(lens, view.value.conditionId)
      then OrdersSeenAt(cache + [o], lens, views + [view.value], at + [|cache|])
      else OrdersSeenAt(cache + [o], lens, views, at)
  {
    var all, n, at' := cache + [o], |cache|, at + [|cache|];
    assert all[n] == o && at'[|at|] == n && n !in at;
    forall m | 0 <= m < n ensures all[m] == cache[m] && (m in at' <==> m in at) {
    }
  }

  lemma {:induction false} OrdersAreSeen(cache: seq<CacheOrder>, lens: Lens) returns (at: seq<nat>)
    ensures OrdersSeenAt(cache, lens, OrderViews(cache, lens), at)
  {
    if cache == [] {
      at := [];
    } else {
      var init, o := cache[..|cache| - 1], cache[|cache| - 1];
      var view := OrderViewOf(o, lens);
      at := OrdersAreSeen(init, lens);
      OneMoreOrder(init, o, lens, OrderViews(init, lens), at);
      assert cache == init + [o];
      at := if view.Some? && InScope(lens, view.value.conditionId) then at + [|init|] else at;
    }
  }

  lemma OneMorePosition(positions: seq<CachePosition>, p: CachePosition, orders: seq<CacheOrder>, lens: Lens,
                        views: seq<PositionView>, at: seq<nat>)
    requires PositionsSeenAt(positions, orders, lens, views, at)
    ensures
      var view := PositionViewOf(p, orders, lens);
      if view.Some? && InScope(lens, view.value.conditionId)
      then PositionsSeenAt(positions + [p], orders, lens, views + [view.value], at + [|positions|])
      else PositionsSeenAt(positions + [p], orders, lens, views, at)
  {
    var all, n, at' := positions + [p], |positions|, at + [|positions|];
    assert all[n] == p && at'[|at|] == n && n !in at;
    forall m | 0 <= m < n ensures all[m] == positions[m] && (m in at' <==> m in at) {
    }
  }

  lemma {:induction false} PositionsAreSeen(positions: seq<CachePosition>, orders: seq<CacheOrder>, lens: Lens)
    returns (at: seq<nat>)
    ensures PositionsSeenAt(positions, orders, lens, PositionViews(positions, orders, lens), at)
  {
    if positions == [] {
      at := [];
    } else {
      var init, p := positions[..|positions| - 1], positions[|positions| - 1];
      var view := PositionViewOf(p, orders, lens);
      at := PositionsAreSeen(init, orders, lens);
      OneMorePosition(init, p, orders, lens, PositionViews(init, orders, lens), at);
      assert positions == init + [p];
      at := if view.Some? && InScope(lens, view.value.conditionId) then at + [|init|] else at;
    }
  }

  method TradingStateFromCache(cache: seq<CacheOrder>, positions: seq<CachePosition>, lens: Lens)
    returns (trading: TradingState)
    ensures trading == StateOf(cache, positions, lens)
    ensures exists at :: OrdersSeenAt(cache, lens, trading.orders, at)
    ensures exists at :: PositionsSeenAt(positions, cache, lens, trading.positions, at)
  {
    var orders: seq<OrderView>, held: seq<PositionView> := [], [];
    for n := 0 to |cache|
      invariant orders == OrderViews(cache[..n], lens)
    {
      assert cache[..n + 1][..n] == cache[..n];
      var view := OrderViewOf(cache[n], lens);
      if view.Some? && lens.Covers(view.value.conditionId) {
        orders := orders + [view.value];
      }
    }
    assert cache[..|cache|] == cache;
    for n := 0 to |positions|
      invariant held == PositionViews(positions[..n], cache, lens)
    {
      assert positions[..n + 1][..n] == positions[..n];
      var view := PositionViewOf(positions[n], cache, lens);
      if view.Some? && lens.Covers(view.value.conditionId) {
        held := held + [view.value];
      }
    }
    assert positions[..|positions|] == positions;
    trading := TradingState(orders, held);
    ghost var at := OrdersAreSeen(cache, lens);
    ghost var heldAt := PositionsAreSeen(positions, cache, lens);
  }

  lemma {:induction false} NoEntryUnseenAll(ps: seq<CachePosition>, a: seq<CacheOrder>, o: CacheOrder,
                                            b: seq<CacheOrder>, lens: Lens)
    requires !IsEntry(o)
    ensures PositionViews(ps, a + [o] + b, lens) == PositionViews(ps, a + b, lens)
  {
    if ps != [] {
      NoEntryUnseenAll(ps[..|ps| - 1], a, o, b, lens);
      NoEntryUnseen(ps[|ps| - 1], a, o, b, lens);
    }
  }

  lemma ViewsGrow(cache: seq<CacheOrder>, o: CacheOrder, lens: Lens)
    ensures OrderViews(cache + [o], lens) == OrderViews(cache, lens) + OrderViews([o], lens)
  {
    assert (cache + [o])[..|cache|] == cache && [o][..0] == [];
  }

  lemma Regrouped<T>(x: seq<T>, y: seq<T>, z: seq<T>)
    ensures x + y + z == x + (y + z)
  {
  }

  lemma {:induction false} ViewsJoin(a: seq<CacheOrder>, b: seq<CacheOrder>, lens: Lens)
    ensures OrderViews(a + b, lens) == OrderViews(a, lens) + OrderViews(b, lens)
  {
    if b == [] {
      assert a + b == a;
    } else {
      var init, last := b[..|b| - 1], b[|b| - 1];
      assert b == init + [last];
      ViewsJoin(a, init, lens);
      OneMoreJoins(a, init, last, lens);
    }
  }

  lemma OneMoreJoins(a: seq<CacheOrder>, b: seq<CacheOrder>, o: CacheOrder, lens: Lens)
    requires OrderViews(a + b, lens) == OrderViews(a, lens) + OrderViews(b, lens)
    ensures OrderViews(a + (b + [o]), lens) == OrderViews(a, lens) + OrderViews(b + [o], lens)
  {
    Regrouped(a, b, [o]);
    ViewsGrow(a + b, o, lens);
    ViewsGrow(b, o, lens);
    Regrouped(OrderViews(a, lens), OrderViews(b, lens), OrderViews([o], lens));
  }

  lemma {:induction false} ViewsFound(cache: seq<CacheOrder>, lens: Lens, i: nat)
    requires i < |cache| && OrderViewOf(cache[i], lens).Some?
    requires lens.Covers(OrderViewOf(cache[i], lens).value.conditionId)
    ensures OrderViewOf(cache[i], lens).value in OrderViews(cache, lens)
  {
    if i < |cache| - 1 {
      ViewsFound(cache[..|cache| - 1], lens, i);
    }
  }

  lemma {:induction false} ViewsAreViews(cache: seq<CacheOrder>, lens: Lens, v: OrderView)
    requires v in OrderViews(cache, lens)
    ensures exists i :: 0 <= i < |cache| && OrderViewOf(cache[i], lens) == Some(v) && lens.Covers(v.conditionId)
  {
    var init := cache[..|cache| - 1];
    if v in OrderViews(init, lens) {
      ViewsAreViews(init, lens, v);
      var i :| 0 <= i < |init| && OrderViewOf(init[i], lens) == Some(v) && lens.Covers(v.conditionId);
      assert cache[i] == init[i];
    }
  }

  lemma {:induction false} PositionViewsAreViews(positions: seq<CachePosition>, orders: seq<CacheOrder>, lens: Lens,
                                                 v: PositionView)
    requires v in PositionViews(positions, orders, lens)
    ensures exists q :: q in positions && PositionViewOf(q, orders, lens) == Some(v)
  {
    var init := positions[..|positions| - 1];
    if v in PositionViews(init, orders, lens) {
      PositionViewsAreViews(init, orders, lens, v);
      var q :| q in init && PositionViewOf(q, orders, lens) == Some(v);
      assert q in positions;
    } else {
      assert positions[|positions| - 1] in positions;
    }
  }

  /** An entry's condition tag, where it has one, is the catalog's condition of its instrument. */
  predicate Catalogued(o: CacheOrder, catalog: string -> string) {
    IsEntry(o) ==> OrElse(Get(ParseTags(o.tags), "condition_id"), catalog(o.instrumentId)) == catalog(o.instrumentId)
  }

  /** A position's condition is then the catalog's condition of its instrument, whichever entry is its latest. */
  lemma ConditionFollows(p: CachePosition, orders: seq<CacheOrder>, lens: Lens, catalog: string -> string)
    requires lens.identity(p.instrumentId) == Some(catalog(p.instrumentId))
    requires forall o | o in orders :: Catalogued(o, catalog)
    requires forall o | o in p.linked :: o in orders && o.instrumentId == p.instrumentId
    ensures PositionViewOf(p, orders, lens).Some? ==>
            PositionViewOf(p, orders, lens).value.conditionId == catalog(p.instrumentId)
  {
    OnInstrumentAre(orders, p.instrumentId);
    LatestEntryIs(LinkedOrders(p, orders));
  }

  // ---------- is an exit on its way? ----------

  predicate HasExitOrder(orders: seq<OrderView>, positionId: string) {
    exists o | o in orders :: o.reduceOnly && o.positionId == Some(positionId) && o.live
  }

  /** The order says which position it closes. */
  predicate Claims(o: CacheOrder, positionId: string) {
    var tags := ParseTags(o.tags);
    && positionId != "" && OrElse(Get(tags, "strategy"), "") != ""
    && Truthy(Get(tags, "reduce_only")) && Get(tags, "position_id") == Some(positionId)
  }

  predicate LiveExit(o: CacheOrder, positionId: string) {
    o.Live() && Claims(o, positionId)
  }

  /** The trading state shows an exit for a position exactly when some live cached order claims it, on an instrument
      the catalog knows and, in a snapshot, under the view's own condition. */
  lemma ExitOrderVisibleExactly(cache: seq<CacheOrder>, lens: Lens, positionId: string)
    requires positionId != ""
    ensures HasExitOrder(OrderViews(cache, lens), positionId) <==>
            exists i :: && 0 <= i < |cache| && LiveExit(cache[i], positionId)
                        && OrderViewOf(cache[i], lens).Some?
                        && lens.Covers(OrderViewOf(cache[i], lens).value.conditionId)
  {
    var views := OrderViews(cache, lens);
    if HasExitOrder(views, positionId) {
      var v :| v in views && v.reduceOnly && v.positionId == Some(positionId) && v.live;
      ViewsAreViews(cache, lens, v);
    }
    forall i | 0 <= i < |cache| && LiveExit(cache[i], positionId) && OrderViewOf(cache[i], lens).Some?
               && lens.Covers(OrderViewOf(cache[i], lens).value.conditionId)
      ensures HasExitOrder(views, positionId)
    {
      ViewsFound(cache, lens, i);
    }
  }

  // ---------- at which prices does the position exit? ----------

  predicate EntersFor(o: OrderView, p: PositionView) {
    o.instrumentId == p.instrumentId && o.strategy == p.strategy && !o.reduceOnly
  }

  function Find(positions: seq<PositionView>, positionId: string): Option<PositionView> {
    if positions == [] then None
    else if positions[0].positionId == positionId then Some(positions[0]) else Find(positions[1..], positionId)
  }

  lemma {:induction false} FindIs(positions: seq<PositionView>, positionId: string)
    ensures Find(positions, positionId).None? ==> forall p | p in positions :: p.positionId != positionId
    ensures Find(positions, positionId).Some? ==>
      exists k :: && 0 <= k < |positions| && Find(positions, positionId) == Some(positions[k])
                  && positions[k].positionId == positionId
                  && forall j | 0 <= j < k :: positions[j].positionId != positionId
  {
    if positions != [] {
      var rest := positions[1..];
      assert positions == [positions[0]] + rest;
      FindIs(rest, positionId);
      if positions[0].positionId == positionId {
        assert Find(positions, positionId) == Some(positions[0]);
      } else if Find(rest, positionId).Some? {
        var k :| && 0 <= k < |rest| && Find(rest, positionId) == Some(rest[k]) && rest[k].positionId == positionId
                 && forall j | 0 <= j < k :: rest[j].positionId != positionId;
        assert positions[k + 1] == rest[k];
        assert forall j | 1 <= j < k + 1 :: positions[j] == rest[j - 1];
      }
    }
  }

  function EntriesOf(orders: seq<OrderView>, p: PositionView): seq<OrderView> {
    if orders == [] then []
    else if EntersFor(orders[0], p) then [orders[0]] + EntriesOf(orders[1..], p) else EntriesOf(orders[1..], p)
  }

  function Insert(o: OrderView, sorted: seq<OrderView>): seq<OrderView> {
    if sorted == [] || !o.IsBefore(sorted[0]) then [o] + sorted else [sorted[0]] + Insert(o, sorted[1..])
  }

  /** Latest first; a stable sort. */
  function LatestFirst(orders: seq<OrderView>): seq<OrderView> {
    if orders == [] then [] else Insert(orders[0], LatestFirst(orders[1..]))
  }

  function FirstStamp(orders: seq<OrderView>): Stamp {
    if orders == [] then Stamp(None, None) else if orders[0].stamp.Empty() then FirstStamp(orders[1..])
      else orders[0].stamp
  }

  function Thresholds(trading: TradingState, positionId: string): Stamp {
    var p := Find(trading.positions, positionId);
    if p.None? then Stamp(None, None) else FirstStamp(LatestFirst(EntriesOf(trading.orders, p.value)))
  }

  method ExitThresholds(trading: TradingState, positionId: string) returns (stamp: Stamp)
    ensures stamp == Thresholds(trading, positionId)
    ensures
      var p := Find(trading.positions, positionId);
      if p.None? then stamp.Empty() else LatestStamp(trading.orders, p.value, stamp)
  {
    var p := Find(trading.positions, positionId);
    if p.None? {
      return Stamp(None, None);
    }
    ThresholdsAreLatest(trading, positionId);
    var sorted := LatestFirst(EntriesOf(trading.orders, p.value));
    for n := 0 to |sorted|
      invariant FirstStamp(sorted) == FirstStamp(sorted[n..])
    {
      assert sorted[n..][0] == sorted[n] && sorted[n..][1..] == sorted[n + 1..];
      if sorted[n].stamp.takeProfit.Some? || sorted[n].stamp.stopLoss.Some? {
        return sorted[n].stamp;
      }
    }
    return Stamp(None, None);
  }

  ghost predicate Descending(orders: seq<OrderView>) {
    forall i, j | 0 <= i < j < |orders| :: !orders[i].IsBefore(orders[j])
  }

  lemma {:induction false} InsertDescends(o: OrderView, sorted: seq<OrderView>)
    requires Descending(sorted)
    ensures Descending(Insert(o, sorted))
    ensures forall x :: x in Insert(o, sorted) <==> x == o || x in sorted
  {
    if sorted != [] {
      assert sorted == [sorted[0]] + sorted[1..];
      if o.IsBefore(sorted[0]) {
        var rest := Insert(o, sorted[1..]);
        InsertDescends(o, sorted[1..]);
        forall j | 0 <= j < |rest| ensures !sorted[0].IsBefore(rest[j]) {
          assert rest[j] in rest;
        }
      }
    }
  }

  lemma {:induction false} LatestFirstSorts(orders: seq<OrderView>)
    ensures Descending(LatestFirst(orders))
    ensures forall x :: x in LatestFirst(orders) <==> x in orders
  {
    if orders != [] {
      LatestFirstSorts(orders[1..]);
      InsertDescends(orders[0], LatestFirst(orders[1..]));
      assert orders == [orders[0]] + orders[1..];
    }
  }

  lemma {:induction false} EntriesAre(orders: seq<OrderView>, p: PositionView)
    ensures forall o :: o in EntriesOf(orders, p) <==> o in orders && EntersFor(o, p)
  {
    if orders != [] {
      EntriesAre(orders[1..], p);
      assert orders == [orders[0]] + orders[1..];
    }
  }

  /** The order is an entry on the position's instrument and of its strategy. */
  predicate IsEntryOf(o: OrderView, p: PositionView) {
    (o.instrumentId, o.strategy, o.reduceOnly) == (p.instrumentId, p.strategy, false)
  }

  /** By time, one without a time before all others, and by client order id at the same time. */
  predicate NoLater(x: OrderView, o: OrderView) {
    match (x.tsEvent, o.tsEvent)
    case (None, Some(_)) => true
    case (Some(_), None) => false
    case (None, None) => x.rank <= o.rank
    case (Some(s), Some(t)) => s < t || (s == t && x.rank <= o.rank)
  }

  lemma NoLaterExactly(x: OrderView, o: OrderView)
    ensures NoLater(x, o) <==> !o.IsBefore(x)
  {
  }

  /** The stamp is that of the latest entry order of the position that has one, or empty when none has. */
  ghost predicate LatestStamp(orders: seq<OrderView>, p: PositionView, stamp: Stamp) {
    if stamp == Stamp(None, None) then forall o | o in orders && IsEntryOf(o, p) :: o.stamp == Stamp(None, None)
    else exists o :: && o in orders && IsEntryOf(o, p) && o.stamp == stamp
                     && forall x | x in orders && IsEntryOf(x, p) && x.stamp != Stamp(None, None) :: NoLater(x, o)
  }

  lemma {:induction false} FirstOfDescending(sorted: seq<OrderView>)
    requires Descending(sorted)
    ensures
      var stamp := FirstStamp(sorted);
      if stamp.Empty() then forall o | o in sorted :: o.stamp.Empty()
      else exists o :: o in sorted && o.stamp == stamp && forall x | x in sorted && !x.stamp.Empty() :: !o.IsBefore(x)
  {
    if sorted != [] {
      var first, rest := sorted[0], sorted[1..];
      assert sorted == [first] + rest;
      if first.stamp.Empty() {
        FirstOfDescending(rest);
      } else {
        assert first in sorted;
        forall x | x in sorted ensures !first.IsBefore(x) {
          var j :| 0 <= j < |sorted| && sorted[j] == x;
        }
      }
    }
  }

  lemma ThresholdsAreLatest(trading: TradingState, positionId: string)
    ensures
      var p, stamp := Find(trading.positions, positionId), Thresholds(trading, positionId);
      if p.None? then stamp.Empty() else LatestStamp(trading.orders, p.value, stamp)
  {
    var p := Find(trading.positions, positionId);
    if p.Some? {
      var entries := EntriesOf(trading.orders, p.value);
      EntriesAre(trading.orders, p.value);
      LatestFirstSorts(entries);
      FirstOfDescending(LatestFirst(entries));
      StampIsLatest(trading.orders, p.value, LatestFirst(entries), FirstStamp(LatestFirst(entries)));
    }
  }

  lemma StampIsLatest(orders: seq<OrderView>, p: PositionView, sorted: seq<OrderView>, stamp: Stamp)
    requires forall o :: o in sorted <==> o in orders && EntersFor(o, p)
    requires
      if stamp.Empty() then forall o | o in sorted :: o.stamp.Empty()
      else exists o :: o in sorted && o.stamp == stamp && forall x | x in sorted && !x.stamp.Empty() :: !o.IsBefore(x)
    ensures LatestStamp(orders, p, stamp)
  {
    if stamp.Empty() {
      forall o | o in orders && IsEntryOf(o, p) ensures o.stamp == Stamp(None, None) {
        assert o in sorted;
      }
    } else {
      var o :| o in sorted && o.stamp == stamp && forall x | x in sorted && !x.stamp.Empty() :: !o.IsBefore(x);
      forall x | x in orders && IsEntryOf(x, p) && x.stamp != Stamp(None, None) ensures NoLater(x, o) {
        assert x in sorted;
        NoLaterExactly(x, o);
      }
    }
  }
}

/** Whole rounds of the exit loop: every exit that is due goes out unless something the loop can name stops it, and what
    went out stops the next round. */
module ExitRounds {
  import opened Options
  import opened Sides
  import opened OrderTags
  import opened TradingState
  import opened ExitPolicy
  import opened ExitLoop

  /** Exits of one round have one key exactly if they are on one side. */
  lemma ExitKey(policy: Policy, t: Tick, trading: TradingState, p: PositionView, d: Decision, q: PositionView,
                e: Decision)
    requires Exits(policy, t, trading, p, d) && Exits(policy, t, trading, q, e)
    ensures d.DedupeKey() == e.DedupeKey() <==> d.side == e.side
  {
    SideInKey(d, e);
  }

  lemma SideInKey(d: Decision, e: Decision)
    requires d.asset == e.asset && d.timeframe == e.timeframe && d.marketId == e.marketId && d.strategy == e.strategy
    requires d.ReduceOnly() == e.ReduceOnly()
    ensures d.DedupeKey() == e.DedupeKey() <==> d.side == e.side
  {
    if d.side != e.side {
      assert |"UP"| != |"DOWN"|;
      assert |d.DedupeKey()| != |e.DedupeKey()|;
    }
  }

  /** An earlier position is due on the same side, and its exit is accepted too. */
  ghost predicate Forestalled(policy: Policy, t: Tick, trading: TradingState, n: nat, side: Side)
    requires n < |trading.positions|
  {
    exists m, e :: && 0 <= m < n && NeedsExit(policy, t, trading, trading.positions[m])
                   && Exits(policy, t, trading, trading.positions[m], e) && e.side == side && t.accepts(e)
  }

  /** Every position that needs an exit has a decision that exits it. It is submitted if the gate accepts it, no live
      order the round sees has its key, and no earlier position is due on the same side. */
  lemma DueIsSubmitted(policy: Policy, cache: seq<CacheOrder>, t: Tick, n: nat) returns (d: Decision)
    requires n < |StateAt(cache, t).positions|
    requires NeedsExit(policy, t, StateAt(cache, t), StateAt(cache, t).positions[n])
    ensures
      var trading := StateAt(cache, t);
      && Exits(policy, t, trading, trading.positions[n], d)
      && (t.accepts(d) && !Forestalled(policy, t, trading, n, d.side)
          && (forall o | o in trading.orders && o.live :: o.dedupeKey != Some(d.DedupeKey()))
          ==> d in SubmittedAt(policy, cache, t))
  {
    var trading := StateAt(cache, t);
    var ds := Decisions(policy, t, trading, trading.positions);
    var at := DueAreDecided(policy, t, trading, trading.positions);
    var k := DecidedAt(policy, t, trading, ds, at, n);
    d := ds[k];
    if t.accepts(d) && !Forestalled(policy, t, trading, n, d.side)
       && (forall o | o in trading.orders && o.live :: o.dedupeKey != Some(d.DedupeKey())) {
      InFlightExactly(trading.orders, d.DedupeKey());
      NothingForestalls(policy, t, trading, ds, at, k);
      var picks := SubmittedExactly(ds, KeysInFlight(trading.orders), t.accepts);
      PickIsSubmitted(ds, KeysInFlight(trading.orders), t.accepts, picks, k);
    }
  }

  lemma DecidedAt(policy: Policy, t: Tick, trading: TradingState, ds: seq<Decision>, at: seq<nat>, n: nat)
    returns (k: nat)
    requires ClosedAt(policy, t, trading, trading.positions, ds, at)
    requires n < |trading.positions| && NeedsExit(policy, t, trading, trading.positions[n])
    ensures k < |ds| == |at| && at[k] == n && Exits(policy, t, trading, trading.positions[n], ds[k])
  {
    assert n in at;
    k :| 0 <= k < |at| && at[k] == n;
  }

  lemma NothingForestalls(policy: Policy, t: Tick, trading: TradingState, ds: seq<Decision>, at: seq<nat>, k: nat)
    requires ClosedAt(policy, t, trading, trading.positions, ds, at) && k < |at|
    requires at[k] < |trading.positions| && !Forestalled(policy, t, trading, at[k], ds[k].side)
    ensures forall m | 0 <= m < k && t.accepts(ds[m]) :: ds[m].DedupeKey() != ds[k].DedupeKey()
  {
    var ps := trading.positions;
    forall m | 0 <= m < k && t.accepts(ds[m]) ensures ds[m].DedupeKey() != ds[k].DedupeKey() {
      assert at[m] < at[k] && at[m] in at && NeedsExit(policy, t, trading, ps[at[m]]);
      assert Exits(policy, t, trading, ps[at[m]], ds[m]);
      ExitKey(policy, t, trading, ps[at[m]], ds[m], ps[at[k]], ds[k]);
    }
  }

  lemma PickIsSubmitted(ds: seq<Decision>, inFlight: set<string>, accepts: Decision -> bool, picks: seq<nat>, k: nat)
    requires PickedAt(ds, inFlight, accepts, Submitted(ds, inFlight, accepts), picks)
    requires k < |ds| && GoesOut(ds, inFlight, accepts, k)
    ensures ds[k] in Submitted(ds, inFlight, accepts)
  {
    assert k in picks;
    var j :| 0 <= j < |picks| && picks[j] == k;
    assert Submitted(ds, inFlight, accepts)[j] == ds[k];
  }

  // ---------- what a round sees, and what happens in between ----------

  /** A round sees the orders that have a view, all of them or, cut down, those of its own condition. */
  lemma StateSees(cache: seq<CacheOrder>, t: Tick, v: OrderView)
    ensures v in StateAt(cache, t).orders <==>
      (t.scoped ==> v.conditionId == t.conditionId)
      && exists i :: 0 <= i < |cache| && OrderViewOf(cache[i], Lens(t.identity, None, t.read)) == Some(v)
  {
    var lens, all := t.View(), Lens(t.identity, None, t.read);
    assert forall o :: OrderViewOf(o, lens) == OrderViewOf(o, all);
    if v in StateAt(cache, t).orders {
      ViewsAreViews(cache, lens, v);
    }
    forall i | && 0 <= i < |cache| && OrderViewOf(cache[i], all) == Some(v)
               && (t.scoped ==> v.conditionId == t.conditionId)
      ensures v in StateAt(cache, t).orders {
      ViewsFound(cache, lens, i);
    }
  }

  /** Between rounds: an update changes the state of one order and of no other, a purge takes one out of the cache, and
      an order placed joins at its end. */
  lemma BetweenRounds(policy: Policy, cache: seq<CacheOrder>, n: nat, isOpen: bool, isInflight: bool,
                      tsEvent: Option<int>, tsLast: int, o: CacheOrder)
    requires n < |cache|
    ensures
      var updated := Step(policy, cache, VenueUpdate(n, isOpen, isInflight, tsEvent, tsLast));
      && |updated| == |cache| && updated[n].Live() == (isOpen || isInflight)
      && (updated[n].isOpen, updated[n].isInflight, updated[n].tsEvent, updated[n].tsLast)
         == (isOpen, isInflight, tsEvent, tsLast)
      && (updated[n].instrumentId, updated[n].tags, updated[n].rank)
         == (cache[n].instrumentId, cache[n].tags, cache[n].rank)
      && forall i | 0 <= i < |cache| && i != n :: updated[i] == cache[i]
    ensures
      var purged := Step(policy, cache, Purge(n));
      && |purged| == |cache| - 1
      && forall i | 0 <= i < |purged| :: purged[i] == cache[if i < n then i else i + 1]
    ensures Step(policy, cache, PlaceOther(o)) == cache + [o]
  {
  }

  // ---------- a key is used once while its order lives ----------

  /** The order carries the decision's tags. */
  ghost predicate Carries(o: CacheOrder, d: Decision) {
    IsPrinting(o.tags, d)
  }

  lemma KeySurvives(o: CacheOrder, d: Decision, lens: Lens)
    requires Carries(o, d) && d.strategy != "" && lens.identity(o.instrumentId).Some?
    ensures OrderViewOf(o, lens).Some? && OrderViewOf(o, lens).value.dedupeKey == Some(d.DedupeKey())
    ensures OrderViewOf(o, lens).value.live == o.Live()
    ensures d.conditionId != "" ==> OrderViewOf(o, lens).value.conditionId == d.conditionId
  {
    PrintingParses(o.tags, d);
    TagsSay(d);
  }

  /** While the order of a decision lives in the cache, on an instrument the round's catalog knows and within its
      condition, no round under any policy submits a decision with its key. */
  lemma LiveKeyBlocks(policy: Policy, cache: seq<CacheOrder>, t: Tick, i: nat, d: Decision)
    requires i < |cache| && cache[i].Live() && Carries(cache[i], d) && d.strategy != "" && d.conditionId != ""
    requires t.identity(cache[i].instrumentId).Some? && t.View().Covers(d.conditionId)
    ensures forall e | e in SubmittedAt(policy, cache, t) :: e.DedupeKey() != d.DedupeKey()
  {
    var trading := StateAt(cache, t);
    var view := OrderViewOf(cache[i], t.View());
    KeySurvives(cache[i], d, t.View());
    ViewsFound(cache, t.View(), i);
    assert view.value in trading.orders;
    InFlightExactly(trading.orders, d.DedupeKey());
    SubmittedAreDistinct(Decisions(policy, t, trading, trading.positions), KeysInFlight(trading.orders), t.accepts);
  }

  /** What one round submitted, no later round submits again while its order lives: whatever else the cache has come to
      hold, and wherever the order now lies. */
  lemma SubmittedIsNotRepeated(policy: Policy, cache: seq<CacheOrder>, t: Tick, n: nat, policy': Policy,
                               cache': seq<CacheOrder>, t': Tick, i: nat)
    requires Prints(t.printer) && n < |SubmittedAt(policy, cache, t)|
    requires
      var o := Evaluate(policy, cache, t)[|cache| + n];
      && i < |cache'| && cache'[i].Live() && cache'[i].tags == o.tags && cache'[i].instrumentId == o.instrumentId
      && t'.identity(o.instrumentId).Some? && t'.View().Covers(t.conditionId) && t.conditionId != ""
    ensures forall e | e in SubmittedAt(policy', cache', t') ::
              e.DedupeKey() != SubmittedAt(policy, cache, t)[n].DedupeKey()
  {
    var trading := StateAt(cache, t);
    var ds, keys := Decisions(policy, t, trading, trading.positions), KeysInFlight(trading.orders);
    var d := SubmittedAt(policy, cache, t)[n];
    var at := DueAreDecided(policy, t, trading, trading.positions);
    var picks := SubmittedExactly(ds, keys, t.accepts);
    assert d == ds[picks[n]] && Exits(policy, t, trading, trading.positions[at[picks[n]]], d);
    assert Evaluate(policy, cache, t)[|cache| + n] == OrderOf(d, t, t.rank(n));
    assert IsPrinting(t.printer(d), d);
    LiveKeyBlocks(policy', cache', t', i, d);
  }
}

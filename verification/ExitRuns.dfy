/** What must hold of a cache, and of the orders placed beside the exit loop, for its law to hold over every run: when
    no position can get a second live order, and where positions take their condition from. */
module ExitRuns {
  import opened Options
  import opened OrderTags
  import opened TradingState
  import opened ExitPolicy
  import opened ExitLoop

  // ---------- when can a position get a second live order? ----------

  /** Every live order that names a position is an exit of it that the policy can see. */
  ghost predicate AllSeen(cache: seq<CacheOrder>) {
    forall i, p | 0 <= i < |cache| && LiveNaming(cache[i], p) :: LiveExit(cache[i], p)
  }

  ghost predicate Tradable(home: Home) {
    forall p :: home(p).0 != ""
  }

  lemma SeenStaysSingle(policy: Policy, home: Home, cache: seq<CacheOrder>, t: Tick)
    requires SingleNamings(cache) && ExitsAtHome(home, cache) && AllSeen(cache)
    requires Homed(home, cache, t) && Prints(t.printer)
    ensures SingleNamings(Evaluate(policy, cache, t)) && AllSeen(Evaluate(policy, cache, t))
  {
    var s := SubmittedAt(policy, cache, t);
    SecondOrderExactly(policy, home, cache, t);
    forall p | p in Closing(s) ensures !IsNamed(cache, p) {
    }
    RoundAdds(policy, home, cache, t);
    NewAreSeen(home, cache, NewOrders(s, t), Closing(s));
  }

  lemma NewAreSeen(home: Home, cache: seq<CacheOrder>, news: seq<CacheOrder>, ids: seq<string>)
    requires AllSeen(cache) && NewExits(news, ids, home)
    ensures AllSeen(cache + news)
  {
    var all := cache + news;
    ExitsName(news, ids, home);
    forall i, p | 0 <= i < |all| && LiveNaming(all[i], p) ensures LiveExit(all[i], p) {
      if |cache| <= i {
        assert all[i] == news[i - |cache|] && ExitOrderOf(news[i - |cache|], ids[i - |cache|], home);
        assert Claims(all[i], p);
      } else {
        assert all[i] == cache[i];
      }
    }
  }

  // A round that closes one position: the policy holds nothing, every gate is open, and the market's name is new.

  const IMPATIENT := Policy(false, false, false, 0.0, 0.0, 0)

  ghost function Round(home: Home, positionId: string, marketId: string): Tick {
    var (instrumentId, conditionId) := home(positionId);
    Tick(conditionId, "", "", marketId, "", None, None, "u", "", _ => instrumentId, _ => Some(conditionId), false,
         [Holding(positionId, instrumentId, Some(0))], _ => Some(0.5), 0, _ => None, _ => "", _ => "", "", n => n,
         _ => true, SomePrinter())
  }

  ghost function RoundView(home: Home, positionId: string): PositionView {
    PositionView(positionId, home(positionId).0, "alpha", home(positionId).1, 1.0, 0.5, Some(0))
  }

  lemma RoundState(home: Home, cache: seq<CacheOrder>, positionId: string, marketId: string)
    requires positionId != ""
    ensures
      var t := Round(home, positionId, marketId);
      && StateAt(cache, t).positions == [RoundView(home, positionId)]
      && StateAt(cache, t).orders == OrderViews(cache, t.View())
      && Homed(home, cache, t)
  {
    var t := Round(home, positionId, marketId);
    HoldingView(positionId, home(positionId).0, Some(0), cache, t.View());
    SoleView(t.positions[0], cache, t.View());
  }

  /** The position's one live order is not an exit the policy sees, so it sees none. */
  lemma NoneVisible(cache: seq<CacheOrder>, lens: Lens, i: nat, positionId: string)
    requires SingleNamings(cache) && i < |cache| && LiveNaming(cache[i], positionId) && !LiveExit(cache[i], positionId)
    ensures !HasExitOrder(OrderViews(cache, lens), positionId)
  {
    ExitOrderVisibleExactly(cache, lens, positionId);
    forall j | 0 <= j < |cache| ensures !LiveExit(cache[j], positionId) {
      assert LiveExit(cache[j], positionId) ==> LiveNaming(cache[j], positionId);
    }
  }

  lemma RoundDecides(home: Home, trading: TradingState, positionId: string, marketId: string)
    requires positionId != "" && home(positionId).0 != "" && !HasExitOrder(trading.orders, positionId)
    ensures
      var d := Decide(IMPATIENT, Round(home, positionId, marketId), trading, RoundView(home, positionId));
      d.Some? && PositionOf(d.value) == positionId && |d.value.DedupeKey()| > |marketId|
  {
    var t, p := Round(home, positionId, marketId), RoundView(home, positionId);
    assert t.TokenOf(p.instrumentId).Some?;
    assert Due(IMPATIENT, t, trading, p, 0.5) == Some("MAX_HOLD_TIME");
  }

  lemma {:induction false} LongerThanAll(keys: set<string>) returns (n: nat)
    ensures forall k | k in keys :: |k| <= n
  {
    if keys == {} {
      n := 0;
    } else {
      var k :| k in keys;
      var m := LongerThanAll(keys - {k});
      n := if |k| > m then |k| else m;
    }
  }

  lemma SoleSubmission(d: Decision, inFlight: set<string>, accepts: Decision -> bool)
    requires accepts(d) && d.DedupeKey() !in inFlight
    ensures Submitted([d], inFlight, accepts) == [d]
  {
    assert [d][1..] == [];
  }

  lemma SoleDecisionOf(policy: Policy, t: Tick, trading: TradingState, p: PositionView)
    requires p.conditionId == t.conditionId && Decide(policy, t, trading, p).Some?
    ensures Decisions(policy, t, trading, [p]) == [Decide(policy, t, trading, p).value]
  {
    assert [p][..0] == [];
  }

  /** A live order that names a position and is no exit the policy sees: some round adds a second one. */
  lemma UnseenIsDoubled(home: Home, cache: seq<CacheOrder>, i: nat, positionId: string) returns (t: Tick)
    requires SingleNamings(cache) && ExitsAtHome(home, cache) && Tradable(home)
    requires i < |cache| && LiveNaming(cache[i], positionId) && !LiveExit(cache[i], positionId)
    ensures Homed(home, cache, t) && Prints(t.printer) && !SingleNamings(Evaluate(IMPATIENT, cache, t))
  {
    var lens := Round(home, positionId, "").View();
    var inFlight := KeysInFlight(OrderViews(cache, lens));
    var n := LongerThanAll(inFlight);
    t := Round(home, positionId, seq(n, _ => 'm'));
    var trading, p := StateAt(cache, t), RoundView(home, positionId);
    RoundState(home, cache, positionId, t.marketId);
    SomePrinterPrints();
    NoneVisible(cache, t.View(), i, positionId);
    RoundDecides(home, trading, positionId, t.marketId);
    var d := Decide(IMPATIENT, t, trading, p).value;
    SoleDecisionOf(IMPATIENT, t, trading, p);
    SoleSubmission(d, inFlight, t.accepts);
    assert Closing(SubmittedAt(IMPATIENT, cache, t))[0] == positionId;
    SecondOrderExactly(IMPATIENT, home, cache, t);
    assert IsNamed(cache, positionId);
  }

  /** No round, under any policy, gives a position a second live order that names it, if and only if every live order
      in the cache that names a position is an exit the policy can see. */
  lemma AlwaysSingleExactly(home: Home, cache: seq<CacheOrder>)
    requires SingleNamings(cache) && ExitsAtHome(home, cache) && Tradable(home)
    ensures (forall policy, t | Homed(home, cache, t) && Prints(t.printer) :: SingleNamings(Evaluate(policy, cache, t)))
            <==> AllSeen(cache)
  {
    if AllSeen(cache) {
      forall policy, t | Homed(home, cache, t) && Prints(t.printer) ensures SingleNamings(Evaluate(policy, cache, t)) {
        SeenStaysSingle(policy, home, cache, t);
      }
    } else {
      var i, p :| 0 <= i < |cache| && LiveNaming(cache[i], p) && !LiveExit(cache[i], p);
      var t := UnseenIsDoubled(home, cache, i, p);
    }
  }

  /** The close requested at resolution is such an order: wherever it lies, some round doubles it. */
  lemma CloseCanBeDoubled(home: Home, a: seq<CacheOrder>, b: seq<CacheOrder>, instrumentId: string, positionId: string,
                          rank: int)
    returns (t: Tick)
    requires
      var cache := a + [ResolutionClose(instrumentId, positionId, rank)] + b;
      SingleNamings(cache) && ExitsAtHome(home, cache) && Tradable(home) && positionId != ""
    ensures
      var cache := a + [ResolutionClose(instrumentId, positionId, rank)] + b;
      Homed(home, cache, t) && Prints(t.printer) && !SingleNamings(Evaluate(IMPATIENT, cache, t))
  {
    var o := ResolutionClose(instrumentId, positionId, rank);
    var cache := a + [o] + b;
    ResolutionTags(positionId);
    assert cache[|a|] == o;
    t := UnseenIsDoubled(home, cache, |a|, positionId);
  }

  // ---------- over runs ----------

  /** The orders placed beside the loop name no position while they live. */
  ghost predicate Quiet(es: seq<Event>) {
    forall k, p | 0 <= k < |es| && es[k].PlaceOther? :: !LiveNaming(es[k].order, p)
  }

  ghost predicate Sound(home: Home, cache: seq<CacheOrder>) {
    SingleNamings(cache) && ExitsAtHome(home, cache) && AllSeen(cache)
  }

  lemma SoundIsSingle(home: Home, cache: seq<CacheOrder>)
    requires Sound(home, cache)
    ensures SingleExits(cache)
  {
    forall i, j, p | 0 <= i < j < |cache| && LiveExit(cache[i], p) ensures !LiveExit(cache[j], p) {
      assert LiveNaming(cache[i], p);
      assert LiveExit(cache[j], p) ==> LiveNaming(cache[j], p);
    }
  }

  /** Each live order is one that was live before. */
  lemma FewerNamings(cache: seq<CacheOrder>, cache': seq<CacheOrder>, was: seq<nat>)
    requires SingleNamings(cache) && AllSeen(cache) && |was| == |cache'|
    requires forall i | 0 <= i < |was| :: was[i] < |cache|
    requires forall i, j | 0 <= i < j < |was| :: was[i] < was[j]
    requires forall i | 0 <= i < |cache'| && cache'[i].Live() ::
             cache[was[i]].Live() && cache[was[i]].tags == cache'[i].tags
    ensures SingleNamings(cache') && AllSeen(cache')
  {
    forall i, p | 0 <= i < |cache'| && LiveNaming(cache'[i], p)
      ensures LiveNaming(cache[was[i]], p) && LiveExit(cache'[i], p) {
      assert LiveExit(cache[was[i]], p);
    }
    forall i, j, p | 0 <= i < j < |cache'| && LiveNaming(cache'[i], p) ensures !LiveNaming(cache'[j], p) {
      assert was[i] < was[j] && LiveNaming(cache[was[i]], p);
    }
  }

  lemma StepStaysSound(policy: Policy, home: Home, cache: seq<CacheOrder>, e: Event)
    requires Sound(home, cache) && Legal(home, cache, e) && Quiet([e])
    ensures Sound(home, Step(policy, cache, e))
  {
    SoundIsSingle(home, cache);
    StepKeepsSingle(policy, home, cache, e);
    match e {
      case EvaluateExits(t) => SeenStaysSingle(policy, home, cache, t);
      case VenueUpdate(_, _, _, _, _) => FewerNamings(cache, Step(policy, cache, e), seq(|cache|, i => i));
      case PlaceOther(o) => QuietOrderKeeps(cache, o);
      case Purge(n) => FewerNamings(cache, Step(policy, cache, e), seq(|cache| - 1, i => if i < n then i else i + 1));
    }
  }

  lemma QuietOrderKeeps(cache: seq<CacheOrder>, o: CacheOrder)
    requires SingleNamings(cache) && AllSeen(cache) && Quiet([PlaceOther(o)])
    ensures SingleNamings(cache + [o]) && AllSeen(cache + [o])
  {
    var all := cache + [o];
    assert [PlaceOther(o)][0].order == o;
    assert forall p :: !LiveNaming(o, p);
    assert forall i | 0 <= i < |cache| :: all[i] == cache[i];
  }

  lemma {:induction false} RunStaysSound(policy: Policy, home: Home, cache: seq<CacheOrder>, es: seq<Event>)
    requires Sound(home, cache) && LegalRun(home, policy, cache, es) && Quiet(es)
    ensures Sound(home, Run(policy, cache, es))
    decreases es
  {
    if es != [] {
      assert Quiet([es[0]]);
      StepStaysSound(policy, home, cache, es[0]);
      RunStaysSound(policy, home, Step(policy, cache, es[0]), es[1..]);
    }
  }

  /** From a cache no legal run whose other orders are quiet ever gives a position a second live order that names it,
      under any policy, if and only if every live order in that cache that names a position is an exit the policy can
      see. */
  lemma RunsSingleExactly(home: Home, cache: seq<CacheOrder>)
    requires SingleNamings(cache) && ExitsAtHome(home, cache) && Tradable(home)
    ensures
      (forall policy, es | LegalRun(home, policy, cache, es) && Quiet(es) :: SingleNamings(Run(policy, cache, es))) <==>
      AllSeen(cache)
  {
    if AllSeen(cache) {
      forall policy, es | LegalRun(home, policy, cache, es) && Quiet(es) ensures SingleNamings(Run(policy, cache, es)) {
        RunStaysSound(policy, home, cache, es);
      }
    } else {
      var i, p :| 0 <= i < |cache| && LiveNaming(cache[i], p) && !LiveExit(cache[i], p);
      var t := UnseenIsDoubled(home, cache, i, p);
      OneRound(IMPATIENT, home, cache, t);
    }
  }

  lemma OneRound(policy: Policy, home: Home, cache: seq<CacheOrder>, t: Tick)
    requires Homed(home, cache, t) && Prints(t.printer)
    ensures
      var es := [EvaluateExits(t)];
      LegalRun(home, policy, cache, es) && Quiet(es) && Run(policy, cache, es) == Evaluate(policy, cache, t)
  {
    var e := EvaluateExits(t);
    var cache' := Step(policy, cache, e);
    assert [e][1..] == [];
    assert Legal(home, cache, e) && LegalRun(home, policy, cache', []) && Run(policy, cache', []) == cache';
  }

  // ---------- where positions take their condition from ----------

  type Catalog = string -> string

  /** Homes follow the catalog: a position's condition is that of its instrument. */
  ghost predicate Follows(home: Home, catalog: Catalog) {
    forall p :: home(p).1 == catalog(home(p).0)
  }

  ghost predicate AllCatalogued(cache: seq<CacheOrder>, catalog: Catalog) {
    forall o | o in cache :: Catalogued(o, catalog)
  }

  /** The round sees positions on their own instruments, linked to cached orders of that instrument, through the
      catalog. */
  ghost predicate Fair(home: Home, catalog: Catalog, cache: seq<CacheOrder>, t: Tick) {
    && Prints(t.printer)
    && forall p | p in t.positions ::
         && p.instrumentId == home(p.positionId).0 && t.identity(p.instrumentId) == Some(catalog(p.instrumentId))
         && forall o | o in p.linked :: o in cache && o.instrumentId == p.instrumentId
  }

  /** Asked of a run: fair rounds, live orders stay cached, and other orders claim nothing and follow the catalog. */
  ghost predicate FairEvent(home: Home, catalog: Catalog, cache: seq<CacheOrder>, e: Event) {
    match e
    case EvaluateExits(t) => Fair(home, catalog, cache, t)
    case PlaceOther(o) => (forall p :: !Claims(o, p)) && Catalogued(o, catalog)
    case VenueUpdate(_, _, _, _, _) => Legal(home, cache, e)
    case Purge(_) => Legal(home, cache, e)
  }

  ghost predicate FairRun(home: Home, catalog: Catalog, policy: Policy, cache: seq<CacheOrder>, es: seq<Event>)
    decreases es
  {
    es == [] ||
    (&& FairEvent(home, catalog, cache, es[0])
     && FairRun(home, catalog, policy, Step(policy, cache, es[0]), es[1..]))
  }

  lemma FairIsHomed(home: Home, catalog: Catalog, cache: seq<CacheOrder>, t: Tick)
    requires Follows(home, catalog) && AllCatalogued(cache, catalog) && Fair(home, catalog, cache, t)
    ensures Homed(home, cache, t)
  {
    forall p | p in t.positions && PositionViewOf(p, cache, t.View()).Some?
      ensures home(p.positionId) == (p.instrumentId, PositionViewOf(p, cache, t.View()).value.conditionId)
    {
      ConditionFollows(p, cache, t.View(), catalog);
    }
  }

  /** Exits are no entries, so they follow any catalog. */
  lemma ExitsAreCatalogued(news: seq<CacheOrder>, ids: seq<string>, home: Home, catalog: Catalog)
    requires NewExits(news, ids, home)
    ensures AllCatalogued(news, catalog)
  {
    forall o | o in news ensures Catalogued(o, catalog) {
      var n :| 0 <= n < |news| && news[n] == o;
      assert ExitOrderOf(news[n], ids[n], home);
      assert Claims(o, ids[n]);
    }
  }

  lemma StepStaysCatalogued(policy: Policy, home: Home, catalog: Catalog, cache: seq<CacheOrder>, e: Event)
    requires ExitsAtHome(home, cache) && AllCatalogued(cache, catalog) && Legal(home, cache, e)
    requires FairEvent(home, catalog, cache, e)
    ensures AllCatalogued(Step(policy, cache, e), catalog)
  {
    var cache' := Step(policy, cache, e);
    match e {
      case EvaluateExits(t) =>
        RoundAdds(policy, home, cache, t);
        var s := SubmittedAt(policy, cache, t);
        ExitsAreCatalogued(NewOrders(s, t), Closing(s), home, catalog);
      case PlaceOther(o) =>
      case VenueUpdate(n, _, _, _, _) =>
        forall o | o in cache' ensures Catalogued(o, catalog) {
          var i :| 0 <= i < |cache'| && cache'[i] == o;
          assert cache[i] in cache && cache[i].tags == o.tags && cache[i].instrumentId == o.instrumentId;
        }
      case Purge(n) =>
    }
  }

  /** So no position ever has two live exits in any fair run: that positions keep their condition follows from their
      entries. */
  lemma {:induction false} SingleExitInFairRuns(policy: Policy, home: Home, catalog: Catalog, cache: seq<CacheOrder>,
                                                es: seq<Event>)
    requires SingleExits(cache) && ExitsAtHome(home, cache) && AllCatalogued(cache, catalog) && Follows(home, catalog)
    requires FairRun(home, catalog, policy, cache, es)
    ensures LegalRun(home, policy, cache, es) && SingleExits(Run(policy, cache, es))
    decreases es
  {
    if es != [] {
      var e := es[0];
      if e.EvaluateExits? {
        FairIsHomed(home, catalog, cache, e.tick);
      }
      assert Legal(home, cache, e);
      StepKeepsSingle(policy, home, cache, e);
      StepStaysCatalogued(policy, home, catalog, cache, e);
      SingleExitInFairRuns(policy, home, catalog, Step(policy, cache, e), es[1..]);
    }
  }
}

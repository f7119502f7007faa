/** The recorder's subscriptions. Quotes are held for markets that are not retired; closes are held until the venue
    reports them. Every subscribe and unsubscribe call is entered in a ghost ledger. */
module RecordedMarketData {
  import opened Options
  import opened InstrumentMarkets

  datatype InstrumentId = InstrumentId(conditionId: string, tokenId: string)

  /** A dictionary entry: the client the calls go through (one per timeframe) and the instruments held. */
  datatype Subscription = Subscription(client: string, ids: seq<InstrumentId>)

  datatype UniversePayload = UniversePayload(active: seq<string>, entered: seq<string>, exited: seq<string>)

  datatype RecorderState = RecorderState(
    builder: BuilderState,
    quotes: map<string, Subscription>,
    closes: map<string, Subscription>,
    inactive: set<string>)

  function Elements<T>(s: seq<T>): set<T> {
    set x | x in s
  }

  lemma ElementsGrow<T>(s: seq<T>, n: nat)
    requires n < |s|
    ensures Elements(s[..n + 1]) == Elements(s[..n]) + {s[n]}
  {
  }

  function IdsOf(m: Market): seq<InstrumentId> {
    seq(|m.tokenIds|, k requires 0 <= k < |m.tokenIds| => InstrumentId(m.conditionId, m.tokenIds[k]))
  }

  function Without<T(==,!new)>(s: seq<T>, x: T): (r: seq<T>)
    ensures forall y :: y in r <==> y in s && y != x
    ensures x !in s ==> r == s
    ensures x in s ==> |r| < |s|
  {
    if s == [] then []
    else
      assert forall y :: y in s <==> y == s[0] || y in s[1..];
      if s[0] == x then Without(s[1..], x) else [s[0]] + Without(s[1..], x)
  }

  ghost predicate Distinct<T(!new)>(s: seq<T>) {
    forall j, k | 0 <= j < k < |s| :: s[j] != s[k]
  }

  lemma {:induction false} WithoutKeepsDistinct<T(!new)>(s: seq<T>, x: T)
    requires Distinct(s)
    ensures Distinct(Without(s, x))
  {
    if s != [] {
      WithoutKeepsDistinct(s[1..], x);
      assert s[0] !in s[1..];
    }
  }

  // ---------- the callbacks as functions ----------

  function OnInstrument(s: RecorderState, i: Instrument): RecorderState {
    var (b, market) := AddInstrument(s.builder, i);
    var s1 := s.(builder := b);
    if market.None? || i.conditionId in s.quotes || i.conditionId in s.inactive then s1
    else
      var sub := Subscription(market.value.timeframe, IdsOf(market.value));
      s1.(quotes := s.quotes[i.conditionId := sub],
          closes := if i.conditionId in s.closes then s.closes else s.closes[i.conditionId := sub])
  }

  function Retire(s: RecorderState, conditions: set<string>): RecorderState {
    s.(inactive := s.inactive + conditions, quotes := s.quotes - conditions)
  }

  /** A reactivated condition gets back the quotes of those of its instruments that are not closed yet. */
  function Reactivate(s: RecorderState, conditions: set<string>): RecorderState {
    var back := conditions * s.inactive;
    s.(inactive := s.inactive - back,
       quotes := s.quotes + map c | c in back && c in s.closes :: s.closes[c])
  }

  lemma ReactivateTwice(s: RecorderState, conditions: set<string>, c: string)
    ensures Reactivate(Reactivate(s, conditions), {c}) == Reactivate(s, conditions + {c})
  {
    var one, both := Reactivate(Reactivate(s, conditions), {c}), Reactivate(s, conditions + {c});
    assert one.inactive == both.inactive;
    assert one.quotes == both.quotes;
  }

  lemma ReactivateOnly(s: RecorderState, c: string)
    ensures Reactivate(s, {c}) ==
            if c !in s.inactive then s
            else s.(inactive := s.inactive - {c},
              quotes := if c in s.closes then s.quotes[c := s.closes[c]] else s.quotes)
  {
    assert {c} * s.inactive == if c in s.inactive then {c} else {};
  }

  function OnUniverse(s: RecorderState, p: UniversePayload): RecorderState {
    var active := Elements(p.active) + Elements(p.entered);
    Reactivate(Retire(s, Elements(p.exited) - active), active)
  }

  function OnInstrumentClose(s: RecorderState, id: Option<InstrumentId>): RecorderState {
    if id.None? || id.value.conditionId !in s.closes || id.value !in s.closes[id.value.conditionId].ids then s
    else
      var c := id.value.conditionId;
      var remaining := Without(s.closes[c].ids, id.value);
      s.(closes := if remaining == [] then s.closes - {c} else s.closes[c := s.closes[c].(ids := remaining)])
  }

  // ---------- invariants of the state ----------

  ghost predicate WellKeyed(subscriptions: map<string, Subscription>) {
    forall c | c in subscriptions ::
      && subscriptions[c].ids != [] && Distinct(subscriptions[c].ids)
      && forall id | id in subscriptions[c].ids :: id.conditionId == c
  }

  ghost predicate Inv(s: RecorderState) {
    && WellKeyed(s.quotes) && WellKeyed(s.closes)
    && s.quotes.Keys !! s.inactive
    && s.closes.Keys <= s.quotes.Keys + s.inactive
    && forall c | c in s.builder.tokens :: Distinct(s.builder.tokens[c])
  }

  lemma IdsOfMarket(b: BuilderState, i: Instrument)
    requires forall c | c in b.tokens :: Distinct(b.tokens[c])
    ensures forall c | c in AddInstrument(b, i).0.tokens :: Distinct(AddInstrument(b, i).0.tokens[c])
    ensures
      var market := AddInstrument(b, i).1;
      market.Some? ==> Distinct(IdsOf(market.value)) && forall id | id in IdsOf(market.value) ::
        id.conditionId == i.conditionId
  {
  }

  lemma InstrumentKeepsInv(s: RecorderState, i: Instrument)
    requires Inv(s)
    ensures Inv(OnInstrument(s, i))
  {
    IdsOfMarket(s.builder, i);
  }

  /** The test for an existing close subscription is never true: the recorder only opens quotes for a condition it holds
      no close subscription for. */
  lemma SubscribesAfresh(s: RecorderState, i: Instrument)
    requires Inv(s) && i.conditionId !in s.quotes && i.conditionId in OnInstrument(s, i).quotes
    ensures i.conditionId !in s.closes
    ensures OnInstrument(s, i).closes[i.conditionId] == OnInstrument(s, i).quotes[i.conditionId]
  {
  }

  lemma RetireKeepsInv(s: RecorderState, conditions: set<string>)
    requires Inv(s)
    ensures Inv(Retire(s, conditions))
  {
  }

  lemma ReactivateKeepsInv(s: RecorderState, conditions: set<string>)
    requires Inv(s)
    ensures Inv(Reactivate(s, conditions))
  {
    var s' := Reactivate(s, conditions);
    forall c | c in s'.quotes
      ensures s'.quotes[c].ids != [] && Distinct(s'.quotes[c].ids)
      ensures forall id | id in s'.quotes[c].ids :: id.conditionId == c
    {
      assert s'.quotes[c] == if c in s.closes && c !in s.quotes then s.closes[c] else s.quotes[c];
    }
  }

  lemma UniverseKeepsInv(s: RecorderState, p: UniversePayload)
    requires Inv(s)
    ensures Inv(OnUniverse(s, p))
  {
    var active := Elements(p.active) + Elements(p.entered);
    RetireKeepsInv(s, Elements(p.exited) - active);
    ReactivateKeepsInv(Retire(s, Elements(p.exited) - active), active);
  }

  lemma CloseKeepsInv(s: RecorderState, id: Option<InstrumentId>)
    requires Inv(s)
    ensures Inv(OnInstrumentClose(s, id))
  {
    if id.Some? && id.value.conditionId in s.closes {
      WithoutKeepsDistinct(s.closes[id.value.conditionId].ids, id.value);
    }
  }

  // ---------- the actor ----------

  datatype Feed = Quote | Close

  datatype Key = Key(feed: Feed, id: InstrumentId, client: string)

  ghost predicate Holds(m: map<string, Subscription>, k: Key) {
    k.id.conditionId in m && Covers(m[k.id.conditionId], k)
  }

  ghost predicate Covers(sub: Subscription, k: Key) {
    k.client == sub.client && k.id in sub.ids
  }

  /** The subscription is on record in the dictionary of its feed. */
  ghost predicate Recorded(quotes: map<string, Subscription>, closes: map<string, Subscription>, k: Key) {
    match k.feed
    case Quote => Holds(quotes, k)
    case Close => Holds(closes, k)
  }

  // ---------- what each callback leaves on record ----------

  ghost predicate OnRecord(s: RecorderState, k: Key) {
    Recorded(s.quotes, s.closes, k)
  }

  /** A complete market of a condition that is neither quoted nor retired brings this subscription. */
  ghost predicate Brings(s: RecorderState, i: Instrument, k: Key) {
    var market := AddInstrument(s.builder, i).1;
    && market.Some? && i.conditionId !in s.quotes && i.conditionId !in s.inactive
    && k.id.conditionId == i.conditionId && k.id.tokenId in market.value.tokenIds && k.client == market.value.timeframe
  }

  /** An arriving instrument subscribes quotes and closes of both tokens of a market it completes, and nothing else. */
  lemma InstrumentExactly(s: RecorderState, i: Instrument, k: Key)
    requires Inv(s)
    ensures OnRecord(OnInstrument(s, i), k) <==> OnRecord(s, k) || Brings(s, i, k)
    ensures OnInstrument(s, i).inactive == s.inactive
  {
    var market := AddInstrument(s.builder, i).1;
    if market.Some? {
      var m := market.value;
      forall token ensures InstrumentId(m.conditionId, token) in IdsOf(m) <==> token in m.tokenIds {
        if token in m.tokenIds {
          var n :| 0 <= n < |m.tokenIds| && m.tokenIds[n] == token;
          assert IdsOf(m)[n] == InstrumentId(m.conditionId, token);
        }
      }
    }
  }

  predicate ListedActive(p: UniversePayload, c: string) {
    c in p.active || c in p.entered
  }

  /** A universe event drops the quotes of what it exits and does not list, gives a retired condition that it lists
      quotes of the instruments still held for their close, and touches no close. */
  lemma UniverseExactly(s: RecorderState, p: UniversePayload, k: Key)
    requires Inv(s)
    ensures
      var s', c := OnUniverse(s, p), k.id.conditionId;
      && (OnRecord(s', k) <==>
           if k.feed.Quote? && ListedActive(p, c) && c in s.inactive then OnRecord(s, k.(feed := Close))
           else OnRecord(s, k) && (k.feed.Quote? && c in p.exited ==> ListedActive(p, c)))
      && (c in s'.inactive <==> !ListedActive(p, c) && (c in s.inactive || c in p.exited))
      && s'.builder == s.builder
  {
    var active := Elements(p.active) + Elements(p.entered);
    var retired := Elements(p.exited) - active;
    var s1 := Retire(s, retired);
    assert k.id.conditionId in active <==> ListedActive(p, k.id.conditionId);
    assert s1.inactive == s.inactive + retired && s1.quotes == s.quotes - retired && s1.closes == s.closes;
  }

  /** A close of an instrument takes that instrument, and no other, off the closes; quotes stay as they are. */
  lemma CloseExactly(s: RecorderState, id: Option<InstrumentId>, k: Key)
    requires Inv(s)
    ensures
      var s' := OnInstrumentClose(s, id);
      && (OnRecord(s', k) <==> OnRecord(s, k) && !(k.feed.Close? && id == Some(k.id)))
      && (forall c | c in s'.closes :: s'.closes[c].ids != [])
      && (s'.builder, s'.quotes, s'.inactive) == (s.builder, s.quotes, s.inactive)
  {
  }

  ghost function Bit(b: bool): nat {
    if b then 1 else 0
  }

  /** The ledger: every subscription is open once or not at all, and open exactly when it is on record. */
  ghost predicate Balanced(quotes: map<string, Subscription>, closes: map<string, Subscription>,
                           subs: multiset<Key>, unsubs: multiset<Key>)
  {
    forall k :: subs[k] == unsubs[k] + Bit(Recorded(quotes, closes, k))
  }

  /** One call was made on one feed for every instrument of a subscription. */
  ghost predicate Called(before: multiset<Key>, after: multiset<Key>, feed: Feed, sub: Subscription) {
    forall k :: after[k] == before[k] + Bit(k.feed == feed && Covers(sub, k))
  }

  ghost predicate KeyedBy(c: string, sub: Subscription) {
    sub.ids != [] && Distinct(sub.ids) && forall id | id in sub.ids :: id.conditionId == c
  }

  lemma NothingOpen(subs: multiset<Key>, unsubs: multiset<Key>)
    requires Balanced(map[], map[], subs, unsubs)
    ensures subs == unsubs
  {
    assert forall k :: subs[k] == unsubs[k] + Bit(Recorded(map[], map[], k));
  }

  lemma MarketBalances(quotes: map<string, Subscription>, closes: map<string, Subscription>, subs: multiset<Key>,
                       unsubs: multiset<Key>, c: string, sub: Subscription, subs': multiset<Key>)
    requires Balanced(quotes, closes, subs, unsubs) && KeyedBy(c, sub) && c !in quotes && c !in closes
    requires forall k :: subs'[k] == subs[k] + Bit(Covers(sub, k))
    requires WellKeyed(quotes) && WellKeyed(closes)
    ensures Balanced(quotes[c := sub], closes[c := sub], subs', unsubs)
  {
    forall k ensures subs'[k] == unsubs[k] + Bit(Recorded(quotes[c := sub], closes[c := sub], k)) {
      assert subs[k] == unsubs[k] + Bit(Recorded(quotes, closes, k));
    }
  }

  lemma OpeningBalances(quotes: map<string, Subscription>, closes: map<string, Subscription>, subs: multiset<Key>,
                        unsubs: multiset<Key>, c: string, sub: Subscription, subs': multiset<Key>)
    requires Balanced(quotes, closes, subs, unsubs) && KeyedBy(c, sub) && c !in quotes
    requires Called(subs, subs', Quote, sub)
    ensures Balanced(quotes[c := sub], closes, subs', unsubs)
  {
    forall k ensures subs'[k] == unsubs[k] + Bit(Recorded(quotes[c := sub], closes, k)) {
      assert subs[k] == unsubs[k] + Bit(Recorded(quotes, closes, k));
    }
  }

  lemma ClosingBalances(quotes: map<string, Subscription>, closes: map<string, Subscription>, subs: multiset<Key>,
                        unsubs: multiset<Key>, feed: Feed, c: string, sub: Subscription, unsubs': multiset<Key>)
    requires Balanced(quotes, closes, subs, unsubs) && KeyedBy(c, sub)
    requires Called(unsubs, unsubs', feed, sub)
    ensures feed == Quote && c in quotes && quotes[c] == sub ==> Balanced(quotes - {c}, closes, subs, unsubs')
    ensures feed == Close && c in closes && closes[c] == sub ==> Balanced(quotes, closes - {c}, subs, unsubs')
  {
    if feed == Quote && c in quotes && quotes[c] == sub {
      forall k ensures subs[k] == unsubs'[k] + Bit(Recorded(quotes - {c}, closes, k)) {
        assert subs[k] == unsubs[k] + Bit(Recorded(quotes, closes, k));
      }
    }
    if feed == Close && c in closes && closes[c] == sub {
      forall k ensures subs[k] == unsubs'[k] + Bit(Recorded(quotes, closes - {c}, k)) {
        assert subs[k] == unsubs[k] + Bit(Recorded(quotes, closes, k));
      }
    }
  }

  lemma OneCloseBalances(quotes: map<string, Subscription>, closes: map<string, Subscription>,
                         closes': map<string, Subscription>, subs: multiset<Key>, unsubs: multiset<Key>,
                         id: InstrumentId)
    requires Balanced(quotes, closes, subs, unsubs) && WellKeyed(closes)
    requires id.conditionId in closes && id in closes[id.conditionId].ids
    requires
      var c := id.conditionId;
      var remaining := Without(closes[c].ids, id);
      closes' == if remaining == [] then closes - {c} else closes[c := closes[c].(ids := remaining)]
    ensures Balanced(quotes, closes', subs, unsubs + multiset{Key(Close, id, closes[id.conditionId].client)})
  {
    var c := id.conditionId;
    var remaining := Without(closes[c].ids, id);
    var unsubs' := unsubs + multiset{Key(Close, id, closes[c].client)};
    forall k ensures subs[k] == unsubs'[k] + Bit(Recorded(quotes, closes', k)) {
      assert subs[k] == unsubs[k] + Bit(Recorded(quotes, closes, k));
      assert k.id in remaining <==> k.id in closes[c].ids && k.id != id;
    }
  }

  class RecordedMarketDataActor {
    const builder: PolymarketInstrumentMarketBuilder
    var quoteSubscriptions: map<string, Subscription>
    var closeSubscriptions: map<string, Subscription>
    var inactiveConditionIds: set<string>
    var subscriptionsStarted: bool
    ghost var subscribed: multiset<Key>
    ghost var unsubscribed: multiset<Key>

    ghost function State(): RecorderState
      reads this, builder
    {
      RecorderState(builder.State(), quoteSubscriptions, closeSubscriptions, inactiveConditionIds)
    }

    ghost predicate Valid()
      reads this, builder
    {
      Inv(State()) && Balanced(quoteSubscriptions, closeSubscriptions, subscribed, unsubscribed)
    }

    constructor ()
      ensures Valid() && fresh(builder)
      ensures State() == RecorderState(EMPTY_BUILDER, map[], map[], {}) && !subscriptionsStarted
    {
      builder := new PolymarketInstrumentMarketBuilder();
      quoteSubscriptions, closeSubscriptions, inactiveConditionIds := map[], map[], {};
      subscriptionsStarted := false;
      subscribed, unsubscribed := multiset{}, multiset{};
    }

    ghost method Subscribe(k: Key)
      modifies `subscribed
      ensures subscribed == old(subscribed) + multiset{k}
    {
      subscribed := subscribed + multiset{k};
    }

    ghost method Unsubscribe(k: Key)
      modifies `unsubscribed
      ensures unsubscribed == old(unsubscribed) + multiset{k}
    {
      unsubscribed := unsubscribed + multiset{k};
    }

    method Start()
      requires Valid()
      modifies `subscriptionsStarted
      ensures Valid() && State() == old(State()) && subscriptionsStarted
    {
      subscriptionsStarted := true;
    }

    /** Open quotes for all instruments of one subscription. */
    method OpenQuotes(sub: Subscription)
      requires Distinct(sub.ids)
      modifies `subscribed
      ensures Called(old(subscribed), subscribed, Quote, sub)
    {
      for n := 0 to |sub.ids|
        invariant Called(old(subscribed), subscribed, Quote, sub.(ids := sub.ids[..n]))
      {
        assert sub.ids[..n + 1] == sub.ids[..n] + [sub.ids[n]];
        Subscribe(Key(Quote, sub.ids[n], sub.client));
      }
      assert sub.ids[..|sub.ids|] == sub.ids;
    }

    /** Close all of one subscription's calls on one feed. */
    method CloseAll(feed: Feed, sub: Subscription)
      requires Distinct(sub.ids)
      modifies `unsubscribed
      ensures Called(old(unsubscribed), unsubscribed, feed, sub)
    {
      for n := 0 to |sub.ids|
        invariant Called(old(unsubscribed), unsubscribed, feed, sub.(ids := sub.ids[..n]))
      {
        assert sub.ids[..n + 1] == sub.ids[..n] + [sub.ids[n]];
        Unsubscribe(Key(feed, sub.ids[n], sub.client));
      }
      assert sub.ids[..|sub.ids|] == sub.ids;
    }

    /** Open a new market's quotes, and its closes unless they are already held. */
    method OpenMarket(c: string, sub: Subscription)
      requires Valid() && KeyedBy(c, sub) && c !in quoteSubscriptions && c !in closeSubscriptions
      modifies `subscribed, `quoteSubscriptions, `closeSubscriptions
      ensures quoteSubscriptions == old(quoteSubscriptions)[c := sub]
      ensures closeSubscriptions == old(closeSubscriptions)[c := sub]
      ensures Balanced(quoteSubscriptions, closeSubscriptions, subscribed, unsubscribed)
    {
      var closeSubscriptionExists := c in closeSubscriptions;
      for n := 0 to |sub.ids|
        invariant forall k :: subscribed[k] == old(subscribed)[k]
                    + Bit(Covers(sub.(ids := sub.ids[..n]), k) && (k.feed == Quote || !closeSubscriptionExists))
        modifies `subscribed
      {
        assert sub.ids[..n + 1] == sub.ids[..n] + [sub.ids[n]];
        Subscribe(Key(Quote, sub.ids[n], sub.client));
        if !closeSubscriptionExists {
          Subscribe(Key(Close, sub.ids[n], sub.client));
        }
      }
      assert sub.ids[..|sub.ids|] == sub.ids;
      quoteSubscriptions := quoteSubscriptions[c := sub];
      if c !in closeSubscriptions {
        closeSubscriptions := closeSubscriptions[c := sub];
      }
      MarketBalances(old(quoteSubscriptions), old(closeSubscriptions), old(subscribed), unsubscribed, c, sub,
        subscribed);
    }

    method ReceiveInstrument(i: Instrument)
      requires Valid()
      modifies this, builder
      ensures Valid() && State() == OnInstrument(old(State()), i)
      ensures subscriptionsStarted == old(subscriptionsStarted) && unsubscribed == old(unsubscribed)
    {
      InstrumentKeepsInv(State(), i);
      IdsOfMarket(builder.State(), i);
      var market := builder.Add(i);
      if market.None? || i.conditionId in quoteSubscriptions || i.conditionId in inactiveConditionIds {
        return;
      }
      OpenMarket(i.conditionId, Subscription(market.value.timeframe, IdsOf(market.value)));
    }

    /** Drop one condition's quotes, if it holds any. */
    method DropQuotes(c: string)
      requires WellKeyed(quoteSubscriptions)
      requires Balanced(quoteSubscriptions, closeSubscriptions, subscribed, unsubscribed)
      modifies `quoteSubscriptions, `unsubscribed
      ensures quoteSubscriptions == old(quoteSubscriptions) - {c}
      ensures Balanced(quoteSubscriptions, closeSubscriptions, subscribed, unsubscribed)
    {
      if c in quoteSubscriptions {
        var sub := quoteSubscriptions[c];
        ghost var before := unsubscribed;
        CloseAll(Quote, sub);
        ClosingBalances(quoteSubscriptions, closeSubscriptions, subscribed, before, Quote, c, sub, unsubscribed);
      }
      quoteSubscriptions := quoteSubscriptions - {c};
    }

    method RetireQuoteSubscriptions(conditions: seq<string>)
      requires Valid()
      modifies `inactiveConditionIds, `quoteSubscriptions, `unsubscribed
      ensures Valid() && State() == Retire(old(State()), Elements(conditions))
    {
      RetireKeepsInv(State(), Elements(conditions));
      inactiveConditionIds := inactiveConditionIds + Elements(conditions);
      ghost var done: set<string> := {};
      for n := 0 to |conditions|
        invariant done == Elements(conditions[..n])
        invariant quoteSubscriptions == old(quoteSubscriptions) - done
        invariant Balanced(quoteSubscriptions, closeSubscriptions, subscribed, unsubscribed)
        modifies `quoteSubscriptions, `unsubscribed
      {
        ElementsGrow(conditions, n);
        DropQuotes(conditions[n]);
        done := done + {conditions[n]};
      }
      assert conditions[..|conditions|] == conditions;
    }

    /** Bring one condition back, with the quotes of its instruments that are still held for their close. */
    method ReactivateOne(c: string)
      requires Valid()
      modifies `inactiveConditionIds, `quoteSubscriptions, `subscribed
      ensures Valid() && State() == Reactivate(old(State()), {c})
    {
      ReactivateKeepsInv(State(), {c});
      ReactivateOnly(State(), c);
      if c in inactiveConditionIds {
        inactiveConditionIds := inactiveConditionIds - {c};
        if c in closeSubscriptions {
          ghost var before := subscribed;
          OpenQuotes(closeSubscriptions[c]);
          OpeningBalances(quoteSubscriptions, closeSubscriptions, before, unsubscribed, c, closeSubscriptions[c],
            subscribed);
          quoteSubscriptions := quoteSubscriptions[c := closeSubscriptions[c]];
        }
      }
    }

    method ReactivateConditions(conditions: seq<string>)
      requires Valid()
      modifies `inactiveConditionIds, `quoteSubscriptions, `subscribed
      ensures Valid() && State() == Reactivate(old(State()), Elements(conditions))
    {
      ghost var done: set<string> := {};
      for n := 0 to |conditions|
        invariant done == Elements(conditions[..n])
        invariant Valid() && State() == Reactivate(old(State()), done)
      {
        ElementsGrow(conditions, n);
        ReactivateTwice(old(State()), done, conditions[n]);
        ReactivateOne(conditions[n]);
        done := done + {conditions[n]};
      }
      assert conditions[..|conditions|] == conditions;
    }

    method ReceiveUniverse(p: UniversePayload)
      requires Valid()
      modifies `inactiveConditionIds, `quoteSubscriptions, `subscribed, `unsubscribed
      ensures Valid() && State() == OnUniverse(old(State()), p)
      ensures forall k :: unsubscribed[k] == old(unsubscribed)[k]
                + Bit(k.feed == Quote && Holds(old(quoteSubscriptions), k) && !Holds(quoteSubscriptions, k))
    {
      var active := p.active + p.entered;
      assert Elements(active) == Elements(p.active) + Elements(p.entered);
      var retired: seq<string> := [];
      for n := 0 to |p.exited|
        invariant Elements(retired) == Elements(p.exited[..n]) - Elements(active)
      {
        assert Elements(p.exited[..n + 1]) == Elements(p.exited[..n]) + {p.exited[n]};
        if p.exited[n] !in active {
          assert Elements(retired + [p.exited[n]]) == Elements(retired) + {p.exited[n]};
          retired := retired + [p.exited[n]];
        }
      }
      assert p.exited[..|p.exited|] == p.exited;
      RetireQuoteSubscriptions(retired);
      ReactivateConditions(active);
    }

    /** Drop one close, and the entry with its last one. */
    method DropClose(id: InstrumentId, remaining: seq<InstrumentId>)
      requires Valid() && id.conditionId in closeSubscriptions && id in closeSubscriptions[id.conditionId].ids
      requires remaining == Without(closeSubscriptions[id.conditionId].ids, id)
      modifies `closeSubscriptions, `unsubscribed
      ensures Valid() && State() == OnInstrumentClose(old(State()), Some(id))
      ensures forall k :: unsubscribed[k] == old(unsubscribed)[k]
                + Bit(k.feed == Close && k.id == id && Holds(old(closeSubscriptions), k))
    {
      CloseKeepsInv(State(), Some(id));
      var c := id.conditionId;
      var sub := closeSubscriptions[c];
      ghost var before, closes := unsubscribed, closeSubscriptions;
      Unsubscribe(Key(Close, id, sub.client));
      closeSubscriptions := if remaining != [] then closeSubscriptions[c := sub.(ids := remaining)]
                            else closeSubscriptions - {c};
      OneCloseBalances(quoteSubscriptions, closes, closeSubscriptions, subscribed, before, id);
    }

    method ReceiveInstrumentClose(id: Option<InstrumentId>)
      requires Valid()
      modifies `closeSubscriptions, `unsubscribed
      ensures Valid() && State() == OnInstrumentClose(old(State()), id)
      ensures forall k :: unsubscribed[k] == old(unsubscribed)[k]
                + Bit(k.feed == Close && id == Some(k.id) && Holds(old(closeSubscriptions), k))
    {
      if id.None? {
        return;
      }
      var rest := closeSubscriptions.Keys;
      while rest != {}
        invariant rest <= closeSubscriptions.Keys
        invariant forall c | c in closeSubscriptions.Keys - rest :: id.value !in closeSubscriptions[c].ids
        invariant unchanged(this)
        decreases rest
      {
        var c :| c in rest;
        rest := rest - {c};
        var sub := closeSubscriptions[c];
        var remaining := Without(sub.ids, id.value);
        if |remaining| != |sub.ids| {
          assert id.value.conditionId == c;
          DropClose(id.value, remaining);
          return;
        }
      }
    }

    method CloseEverything()
      requires Valid() && quoteSubscriptions == map[]
      modifies `closeSubscriptions, `unsubscribed
      ensures Valid() && closeSubscriptions == map[]
    {
      var rest := closeSubscriptions.Keys;
      while rest != {}
        invariant Valid()
        invariant closeSubscriptions.Keys == rest
        decreases rest
      {
        var c :| c in rest;
        var sub := closeSubscriptions[c];
        ghost var before := unsubscribed;
        CloseAll(Close, sub);
        ClosingBalances(quoteSubscriptions, closeSubscriptions, subscribed, before, Close, c, sub, unsubscribed);
        closeSubscriptions := closeSubscriptions - {c};
        rest := rest - {c};
      }
    }

    method RetireEverything()
      requires Valid()
      modifies `inactiveConditionIds, `quoteSubscriptions, `unsubscribed
      ensures Valid() && quoteSubscriptions == map[]
    {
      var rest := quoteSubscriptions.Keys;
      while rest != {}
        invariant Valid()
        invariant quoteSubscriptions.Keys <= rest
        decreases rest
      {
        var c :| c in rest;
        RetireQuoteSubscriptions([c]);
        assert c in Elements([c]);
        rest := rest - {c};
      }
    }

    method Stop()
      requires Valid()
      modifies this
      ensures Valid() && !subscriptionsStarted
      ensures old(subscriptionsStarted) ==>
                quoteSubscriptions == map[] && closeSubscriptions == map[] && inactiveConditionIds == {}
      ensures old(subscriptionsStarted) ==> subscribed == unsubscribed
      ensures !old(subscriptionsStarted) ==> State() == old(State())
      ensures builder.State() == old(builder.State())
    {
      if subscriptionsStarted {
        RetireEverything();
        CloseEverything();
        inactiveConditionIds := {};
        subscriptionsStarted := false;
        NothingOpen(subscribed, unsubscribed);
      }
    }
  }
}

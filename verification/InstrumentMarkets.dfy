/** Binary market projections built from single-token instruments. A terminal condition is latched: once one
    of its instruments arrives closed, resolved or cancelled, no later pair can reopen it. */
module InstrumentMarkets {
  import opened Options

  datatype MarketStatus = Active | Closed | Resolved | Cancelled | Unknown

  /** The parts of a Gamma-shaped payload the market actors look at. `family` is the (asset, timeframe) the
      slug matched, `details` the descriptive fields that only metadata readers see. */
  datatype Payload = Payload(family: Option<(string, string)>, status: MarketStatus, endTs: Option<int>,
                             details: string)

  /** `usable` is false when the outcome is empty or the info block is not a mapping. */
  datatype Instrument = Instrument(conditionId: string, tokenId: string, usable: bool, payload: Payload)

  datatype Market = Market(
    conditionId: string,
    asset: string,
    timeframe: string,
    endTs: Option<int>,
    status: MarketStatus,
    tokenIds: seq<string>,
    details: string)
  {
    predicate IsActive() {
      status.Active?
    }

    predicate IsExpired(now: int) {
      endTs.Some? && now >= endTs.value
    }

    /** What a metadata reader can see: everything but the status. */
    function Signature(): Market {
      this.(status := Unknown)
    }
  }

  predicate IsTerminal(payload: Payload) {
    payload.status.Closed? || payload.status.Resolved? || payload.status.Cancelled?
  }

  /** The builder's two dictionaries: the tokens seen per condition, in arrival order, and the latch. */
  datatype BuilderState = BuilderState(tokens: map<string, seq<string>>, terminal: set<string>)

  const EMPTY_BUILDER := BuilderState(map[], {})

  function RecordTerminal(b: BuilderState, i: Instrument): (r: (BuilderState, Option<string>))
    ensures b.terminal <= r.0.terminal
    ensures r.1.Some? ==> r.1.value in r.0.terminal
  {
    if !i.usable || i.payload.family.None? || !IsTerminal(i.payload) then (b, None)
    else (b.(terminal := b.terminal + {i.conditionId}), Some(i.conditionId))
  }

  function WithToken(tokens: seq<string>, token: string): seq<string> {
    if token in tokens then tokens else tokens + [token]
  }

  function TokensOf(b: BuilderState, conditionId: string): seq<string> {
    if conditionId in b.tokens then b.tokens[conditionId] else []
  }

  /** A market comes out only when its condition has exactly two tokens, and never as active once latched. */
  function AddInstrument(b: BuilderState, i: Instrument): (r: (BuilderState, Option<Market>))
    ensures b.terminal <= r.0.terminal
    ensures r.1.Some? ==> r.1.value.conditionId == i.conditionId && |r.1.value.tokenIds| == 2
    ensures r.1.Some? && r.1.value.IsActive() ==> i.conditionId !in r.0.terminal
  {
    if !i.usable || i.payload.family.None? then (b, None)
    else
      var terminal := if IsTerminal(i.payload) then b.terminal + {i.conditionId} else b.terminal;
      var tokens := WithToken(TokensOf(b, i.conditionId), i.tokenId);
      var b' := BuilderState(b.tokens[i.conditionId := tokens], terminal);
      var (asset, timeframe) := i.payload.family.value;
      var market := Market(i.conditionId, asset, timeframe, i.payload.endTs, i.payload.status, tokens,
        i.payload.details);
      if |tokens| != 2 || (i.conditionId in terminal && market.IsActive()) then (b', None) else (b', Some(market))
  }

  function RestoreTerminal(b: BuilderState, ids: set<string>): BuilderState {
    b.(terminal := b.terminal + (ids - {""}))
  }

  // ---------- what the arrivals amount to ----------

  function AddAll(b: BuilderState, arrivals: seq<Instrument>): BuilderState {
    if arrivals == [] then b
    else AddInstrument(AddAll(b, arrivals[..|arrivals| - 1]), arrivals[|arrivals| - 1]).0
  }

  /** The instrument is one of the condition's that the builder looks at. */
  predicate Concerns(i: Instrument, c: string) {
    i.usable && i.payload.family.Some? && i.conditionId == c
  }

  predicate SaysTerminal(i: Instrument) {
    i.payload.status in {Closed, Resolved, Cancelled}
  }

  ghost predicate Arrived(arrivals: seq<Instrument>, c: string, token: string) {
    exists i | i in arrivals :: Concerns(i, c) && i.tokenId == token
  }

  ghost predicate Ended(arrivals: seq<Instrument>, c: string) {
    exists i | i in arrivals :: Concerns(i, c) && SaysTerminal(i)
  }

  /** The condition's tokens are those that arrived, once each, and it is latched if one said it was terminal. */
  ghost predicate Collected(b: BuilderState, arrivals: seq<Instrument>, c: string) {
    && (forall token :: token in TokensOf(b, c) <==> Arrived(arrivals, c, token))
    && Different(TokensOf(b, c))
    && (c in b.terminal <==> Ended(arrivals, c))
  }

  lemma OneMoreArrival(arrivals: seq<Instrument>, i: Instrument, c: string)
    ensures forall token :: Arrived(arrivals + [i], c, token)
                            <==> Arrived(arrivals, c, token) || (Concerns(i, c) && i.tokenId == token)
    ensures Ended(arrivals + [i], c) <==> Ended(arrivals, c) || (Concerns(i, c) && SaysTerminal(i))
  {
    assert (arrivals + [i])[|arrivals|] == i;
    assert forall x | x in arrivals :: x in arrivals + [i];
  }

  lemma AddCollects(b: BuilderState, arrivals: seq<Instrument>, i: Instrument, c: string)
    requires Collected(b, arrivals, c)
    ensures Collected(AddInstrument(b, i).0, arrivals + [i], c)
  {
    OneMoreArrival(arrivals, i, c);
    var tokens, tokens' := TokensOf(b, c), TokensOf(AddInstrument(b, i).0, c);
    assert tokens' == if Concerns(i, c) && i.tokenId !in tokens then tokens + [i.tokenId] else tokens;
  }

  lemma {:induction false} ArrivalsCollect(arrivals: seq<Instrument>, c: string)
    ensures Collected(AddAll(EMPTY_BUILDER, arrivals), arrivals, c)
  {
    if arrivals != [] {
      var init := arrivals[..|arrivals| - 1];
      ArrivalsCollect(init, c);
      AddCollects(AddAll(EMPTY_BUILDER, init), init, arrivals[|arrivals| - 1], c);
      assert arrivals == init + [arrivals[|arrivals| - 1]];
    } else {
      assert !Ended(arrivals, c) && forall token :: !Arrived(arrivals, c, token);
    }
  }

  /** Of the condition's tokens other than the instrument's own, this one has arrived and no second. */
  ghost predicate OtherArrived(arrivals: seq<Instrument>, i: Instrument, other: string) {
    && other != i.tokenId && Arrived(arrivals, i.conditionId, other)
    && forall token | Arrived(arrivals, i.conditionId, token) :: token == other || token == i.tokenId
  }

  /** An arrival yields a market if and only if exactly one other token of its condition has ever arrived and it does
      not call a condition active that it or an earlier arrival called terminal; the market is the latest payload's. */
  lemma CompleteExactly(arrivals: seq<Instrument>, i: Instrument)
    ensures
      var c, market := i.conditionId, AddInstrument(AddAll(EMPTY_BUILDER, arrivals), i).1;
      && (market.Some? <==>
            && Concerns(i, c)
            && (exists other :: OtherArrived(arrivals, i, other))
            && (i.payload.status == Active ==> !Ended(arrivals, c)))
      && (market.Some? ==>
            var m := market.value;
            && (m.conditionId, m.status, m.endTs, m.details)
               == (c, i.payload.status, i.payload.endTs, i.payload.details)
            && (m.asset, m.timeframe) == i.payload.family.value && |m.tokenIds| == 2
            && forall token :: token in m.tokenIds <==> token == i.tokenId || Arrived(arrivals, c, token))
  {
    var c, b := i.conditionId, AddAll(EMPTY_BUILDER, arrivals);
    ArrivalsCollect(arrivals, c);
    var tokens := TokensOf(b, c);
    if Concerns(i, c) {
      TwoTokens(tokens, i.tokenId);
      assert forall token :: token in tokens <==> Arrived(arrivals, c, token);
      forall other ensures IsOther(tokens, i.tokenId, other) <==> OtherArrived(arrivals, i, other) {
      }
    }
  }

  ghost predicate Different(tokens: seq<string>) {
    forall j, k | 0 <= j < k < |tokens| :: tokens[j] != tokens[k]
  }

  lemma {:induction false} DifferentSize(tokens: seq<string>)
    requires Different(tokens)
    ensures |set t | t in tokens| == |tokens|
  {
    if tokens != [] {
      var init, last := tokens[..|tokens| - 1], tokens[|tokens| - 1];
      DifferentSize(init);
      assert tokens == init + [last] && last !in init;
      assert (set t | t in tokens) == (set t | t in init) + {last};
    }
  }

  lemma OneElement(s: set<string>)
    ensures |s| == 1 <==> exists x :: s == {x}
  {
    if |s| == 1 {
      var x :| x in s;
      assert |s - {x}| == 0 && s == {x} + (s - {x});
    }
  }

  ghost predicate IsOther(tokens: seq<string>, token: string, other: string) {
    other != token && other in tokens && forall t | t in tokens :: t == other || t == token
  }

  lemma OnlyOther(tokens: seq<string>, token: string, other: string)
    ensures IsOther(tokens, token, other) <==> (set t | t in tokens) - {token} == {other}
  {
    var others := (set t | t in tokens) - {token};
    if others == {other} {
      assert other in others;
      forall t | t in tokens ensures t == other || t == token {
        assert t in others || t == token;
      }
    }
  }

  lemma TwoTokens(tokens: seq<string>, token: string)
    requires Different(tokens)
    ensures |WithToken(tokens, token)| == 2 <==> exists other :: IsOther(tokens, token, other)
  {
    var all := WithToken(tokens, token);
    var others := (set t | t in tokens) - {token};
    assert (set t | t in all) == others + {token};
    DifferentSize(all);
    OneElement(others);
    forall other ensures IsOther(tokens, token, other) <==> others == {other} {
      OnlyOther(tokens, token, other);
    }
  }

  /** Closed, resolved and cancelled instruments, and no others, latch their condition before anything is collected. */
  lemma RecordExactly(b: BuilderState, i: Instrument, c: string)
    ensures
      var (b', recorded) := RecordTerminal(b, i);
      && (c in b'.terminal <==> c in b.terminal || (Concerns(i, c) && SaysTerminal(i)))
      && (recorded == Some(c) <==> Concerns(i, c) && SaysTerminal(i)) && b'.tokens == b.tokens
  {
  }

  /** Two markets have one signature exactly if a metadata reader sees no difference: only their status may differ. */
  lemma SignatureExactly(m: Market, n: Market)
    ensures m.Signature() == n.Signature() <==>
      (m.conditionId, m.asset, m.timeframe, m.endTs, m.tokenIds, m.details) ==
      (n.conditionId, n.asset, n.timeframe, n.endTs, n.tokenIds, n.details)
  {
  }

  class PolymarketInstrumentMarketBuilder {
    var instruments: map<string, seq<string>>
    var terminalConditionIds: set<string>

    function State(): BuilderState
      reads this
    {
      BuilderState(instruments, terminalConditionIds)
    }

    constructor ()
      ensures State() == EMPTY_BUILDER
    {
      instruments, terminalConditionIds := map[], {};
    }

    method RestoreTerminalConditions(ids: set<string>)
      modifies this
      ensures State() == RestoreTerminal(old(State()), ids)
    {
      var rest := ids;
      while rest != {}
        invariant rest <= ids && instruments == old(instruments)
        invariant terminalConditionIds == old(terminalConditionIds) + (ids - rest - {""})
        decreases rest
      {
        var id :| id in rest;
        if id != "" {
          terminalConditionIds := terminalConditionIds + {id};
        }
        rest := rest - {id};
      }
    }

    method RecordTerminalCondition(i: Instrument) returns (recorded: Option<string>)
      modifies this
      ensures (State(), recorded) == RecordTerminal(old(State()), i)
    {
      if !i.usable || i.payload.family.None? || !IsTerminal(i.payload) {
        return None;
      }
      terminalConditionIds := terminalConditionIds + {i.conditionId};
      return Some(i.conditionId);
    }

    method Add(i: Instrument) returns (market: Option<Market>)
      modifies this
      ensures (State(), market) == AddInstrument(old(State()), i)
    {
      if !i.usable || i.payload.family.None? {
        return None;
      }
      if IsTerminal(i.payload) {
        terminalConditionIds := terminalConditionIds + {i.conditionId};
      }
      var byToken := if i.conditionId in instruments then instruments[i.conditionId] else [];
      if i.tokenId !in byToken {
        byToken := byToken + [i.tokenId];
      }
      instruments := instruments[i.conditionId := byToken];
      if |byToken| != 2 {
        return None;
      }
      var (asset, timeframe) := i.payload.family.value;
      var m := Market(i.conditionId, asset, timeframe, i.payload.endTs, i.payload.status, byToken, i.payload.details);
      if i.conditionId in terminalConditionIds && m.IsActive() {
        return None;
      }
      return Some(m);
    }
  }
}

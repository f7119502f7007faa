/** The market catalog: a condition dictionary with a reverse token dictionary, a memo of resolved instrument ids and
    a lazily built timeframe index. The reference is a linear scan of the condition dictionary alone. */
module MarketCatalog {
  import opened Options

  datatype Pair = Pair(conditionId: string, marketId: string, timeframe: string, up: string, down: string)
  {
    function Tokens(): set<string> {
      {up, down}
    }
  }

  /** Derives an instrument id from a condition and a token; it may know none. */
  type Resolver = (string, string) -> Option<string>

  /** `order` is the dictionary's insertion order of its keys. */
  datatype CatalogState = CatalogState(
    order: seq<string>,
    byCondition: map<string, Pair>,
    conditionByToken: map<string, string>,
    idByToken: map<string, string>,
    timeframeIndex: Option<map<string, string>>)

  const EMPTY := CatalogState([], map[], map[], map[], None)

  function Register(s: CatalogState, p: Pair): CatalogState {
    var forgotten := if p.conditionId in s.byCondition then s.byCondition[p.conditionId].Tokens() else {};
    CatalogState(
      if p.conditionId in s.byCondition then s.order else s.order + [p.conditionId],
      s.byCondition[p.conditionId := p],
      (s.conditionByToken - forgotten)[p.up := p.conditionId][p.down := p.conditionId],
      s.idByToken - forgotten - {p.up, p.down},
      None)
  }

  function RegisterAll(s: CatalogState, ps: seq<Pair>): CatalogState
    decreases ps
  {
    if ps == [] then s else RegisterAll(Register(s, ps[0]), ps[1..])
  }

  function ByToken(s: CatalogState, token: string): Option<Pair> {
    if token in s.conditionByToken && s.conditionByToken[token] in s.byCondition then
      Some(s.byCondition[s.conditionByToken[token]])
    else None
  }

  // ---------- the reference: scans of the condition dictionary ----------

  /** The pairs in dictionary order. */
  ghost predicate Ordered(s: CatalogState) {
    && (forall j, k | 0 <= j < k < |s.order| :: s.order[j] != s.order[k])
    && (forall c :: c in s.order <==> c in s.byCondition)
    && (forall c | c in s.byCondition :: s.byCondition[c].conditionId == c)
  }

  function Pairs(s: CatalogState): seq<Pair>
    requires forall c | c in s.order :: c in s.byCondition
  {
    seq(|s.order|, k requires 0 <= k < |s.order| => assert s.order[k] in s.order; s.byCondition[s.order[k]])
  }

  function ScanToken(ps: seq<Pair>, token: string): Option<Pair> {
    if ps == [] then None else if token in ps[0].Tokens() then Some(ps[0]) else ScanToken(ps[1..], token)
  }

  function ScanInstrument(ps: seq<Pair>, resolve: Resolver, token: string): Option<string> {
    var p := ScanToken(ps, token);
    if p.None? then None else resolve(p.value.conditionId, token)
  }

  predicate Names(p: Pair, resolve: Resolver, id: string) {
    resolve(p.conditionId, p.up) == Some(id) || resolve(p.conditionId, p.down) == Some(id)
  }

  /** The first market, in dictionary order, one of whose tokens has this instrument id. */
  function ScanMarket(ps: seq<Pair>, resolve: Resolver, id: string): Option<string> {
    if ps == [] then None else if Names(ps[0], resolve, id) then Some(ps[0].marketId)
      else ScanMarket(ps[1..], resolve, id)
  }

  /** The last market's timeframe, should two markets resolve to one id. */
  function ScanTimeframe(ps: seq<Pair>, resolve: Resolver, id: string): Option<string> {
    if ps == [] then None
    else
      var last := ps[|ps| - 1];
      if Names(last, resolve, id) then Some(last.timeframe) else ScanTimeframe(ps[..|ps| - 1], resolve, id)
  }

  /** One of the pair's tokens resolves to the instrument id. */
  ghost predicate ResolvesTo(p: Pair, resolve: Resolver, id: string) {
    exists token | token in [p.up, p.down] :: resolve(p.conditionId, token) == Some(id)
  }

  lemma NamesExactly(p: Pair, resolve: Resolver, id: string)
    ensures Names(p, resolve, id) <==> ResolvesTo(p, resolve, id)
  {
    if Names(p, resolve, id) {
      assert p.up in [p.up, p.down] && p.down in [p.up, p.down];
    }
  }

  /** The answer is the market id of the first pair that resolves to the id, or none where none does. */
  ghost predicate OfFirst(ps: seq<Pair>, resolve: Resolver, id: string, answer: Option<string>) {
    if answer.None? then forall k | 0 <= k < |ps| :: !ResolvesTo(ps[k], resolve, id)
    else exists k :: && 0 <= k < |ps| && ResolvesTo(ps[k], resolve, id) && answer.value == ps[k].marketId
                     && forall j | 0 <= j < k :: !ResolvesTo(ps[j], resolve, id)
  }

  /** The answer is the timeframe of the last pair that resolves to the id, or none where none does. */
  ghost predicate OfLast(ps: seq<Pair>, resolve: Resolver, id: string, answer: Option<string>) {
    if answer.None? then forall k | 0 <= k < |ps| :: !ResolvesTo(ps[k], resolve, id)
    else exists k :: && 0 <= k < |ps| && ResolvesTo(ps[k], resolve, id) && answer.value == ps[k].timeframe
                     && forall j | k < j < |ps| :: !ResolvesTo(ps[j], resolve, id)
  }

  /** The answer is what the token resolves to under the first condition that holds it. */
  ghost predicate OfOwner(ps: seq<Pair>, resolve: Resolver, token: string, answer: Option<string>) {
    if exists k :: 0 <= k < |ps| && token in [ps[k].up, ps[k].down] then
      exists k :: && 0 <= k < |ps| && token in [ps[k].up, ps[k].down] && answer == resolve(ps[k].conditionId, token)
                  && forall j | 0 <= j < k :: token !in [ps[j].up, ps[j].down]
    else answer.None?
  }

  lemma {:induction false} ScanMarketIs(ps: seq<Pair>, resolve: Resolver, id: string)
    ensures OfFirst(ps, resolve, id, ScanMarket(ps, resolve, id))
  {
    if ps != [] {
      NamesExactly(ps[0], resolve, id);
      ScanMarketIs(ps[1..], resolve, id);
      assert ps == [ps[0]] + ps[1..];
      if !Names(ps[0], resolve, id) && ScanMarket(ps, resolve, id).Some? {
        var rest := ps[1..];
        var k :| && 0 <= k < |rest| && ResolvesTo(rest[k], resolve, id)
                 && ScanMarket(ps, resolve, id).value == rest[k].marketId
                 && forall j | 0 <= j < k :: !ResolvesTo(rest[j], resolve, id);
        assert ps[k + 1] == rest[k];
        forall j | 0 <= j < k + 1 ensures !ResolvesTo(ps[j], resolve, id) {
          assert j > 0 ==> ps[j] == rest[j - 1];
        }
      }
    }
  }

  lemma {:induction false} ScanTimeframeIs(ps: seq<Pair>, resolve: Resolver, id: string)
    ensures OfLast(ps, resolve, id, ScanTimeframe(ps, resolve, id))
  {
    if ps != [] {
      NamesExactly(ps[|ps| - 1], resolve, id);
      ScanTimeframeIs(ps[..|ps| - 1], resolve, id);
    }
  }

  lemma {:induction false} ScanInstrumentIs(ps: seq<Pair>, resolve: Resolver, token: string)
    ensures OfOwner(ps, resolve, token, ScanInstrument(ps, resolve, token))
  {
    if ps != [] {
      var rest := ps[1..];
      assert ps == [ps[0]] + rest;
      if token !in ps[0].Tokens() {
        ScanInstrumentIs(rest, resolve, token);
        assert forall k | 0 <= k < |rest| :: ps[k + 1] == rest[k];
        if j :| 0 <= j < |ps| && token in [ps[j].up, ps[j].down] {
          assert rest[j - 1] == ps[j];
          var k :| && 0 <= k < |rest| && token in [rest[k].up, rest[k].down]
                   && ScanInstrument(rest, resolve, token) == resolve(rest[k].conditionId, token)
                   && forall i | 0 <= i < k :: token !in [rest[i].up, rest[i].down];
          forall i | 0 <= i < k + 1 ensures token !in [ps[i].up, ps[i].down] {
            assert i > 0 ==> ps[i] == rest[i - 1];
          }
        }
      }
    }
  }

  function Get(m: map<string, string>, key: string): Option<string> {
    if key in m then Some(m[key]) else None
  }

  // ---------- the caches agree with the scans ----------

  ghost predicate Owns(byCondition: map<string, Pair>, c: string, token: string) {
    c in byCondition && token in byCondition[c].Tokens()
  }

  /** The reverse dictionary names the owner of every token, and nothing else. */
  ghost predicate Reversed(byCondition: map<string, Pair>, conditionByToken: map<string, string>) {
    forall c, token :: Owns(byCondition, c, token) <==> token in conditionByToken && conditionByToken[token] == c
  }

  ghost predicate Memoised(conditionByToken: map<string, string>, idByToken: map<string, string>, resolve: Resolver) {
    forall token | token in idByToken ::
      token in conditionByToken && resolve(conditionByToken[token], token) == Some(idByToken[token])
  }

  ghost predicate Indexed(ps: seq<Pair>, index: Option<map<string, string>>, resolve: Resolver) {
    index.Some? ==> forall id :: Get(index.value, id) == ScanTimeframe(ps, resolve, id)
  }

  ghost predicate Consistent(s: CatalogState, resolve: Resolver) {
    && Ordered(s)
    && Reversed(s.byCondition, s.conditionByToken)
    && Memoised(s.conditionByToken, s.idByToken, resolve)
    && Indexed(Pairs(s), s.timeframeIndex, resolve)
  }

  /** No other condition holds one of the pair's tokens. */
  ghost predicate Fresh(s: CatalogState, p: Pair) {
    forall c, token | Owns(s.byCondition, c, token) && c != p.conditionId :: token !in p.Tokens()
  }

  lemma RegisterOrders(s: CatalogState, p: Pair)
    requires Ordered(s)
    ensures Ordered(Register(s, p))
  {
    var s' := Register(s, p);
    forall c ensures c in s'.order <==> c in s'.byCondition {
      assert c in s.order <==> c in s.byCondition;
    }
  }

  lemma RegisterReverses(s: CatalogState, p: Pair)
    requires Reversed(s.byCondition, s.conditionByToken)
    ensures Reversed(Register(s, p).byCondition, Register(s, p).conditionByToken) <==> Fresh(s, p)
  {
    var s' := Register(s, p);
    if Fresh(s, p) {
      forall c, token
        ensures Owns(s'.byCondition, c, token) <==> token in s'.conditionByToken && s'.conditionByToken[token] == c
      {
        assert Owns(s.byCondition, c, token) <==> token in s.conditionByToken && s.conditionByToken[token] == c;
        assert Owns(s.byCondition, p.conditionId, token)
          <==> token in s.conditionByToken && s.conditionByToken[token] == p.conditionId;
      }
    } else {
      var c, token :| Owns(s.byCondition, c, token) && c != p.conditionId && token in p.Tokens();
      assert Owns(s'.byCondition, c, token) && Owns(s'.byCondition, p.conditionId, token);
    }
  }

  /** Registering keeps the catalog consistent exactly when it gives no token to a second condition. */
  lemma RegisterKeepsConsistentExactly(s: CatalogState, p: Pair, resolve: Resolver)
    requires Consistent(s, resolve)
    ensures Consistent(Register(s, p), resolve) <==> Fresh(s, p)
  {
    var s' := Register(s, p);
    RegisterOrders(s, p);
    RegisterReverses(s, p);
    forall token | token in s'.idByToken
      ensures token in s'.conditionByToken && resolve(s'.conditionByToken[token], token) == Some(s'.idByToken[token])
    {
      assert token in s.idByToken && s'.conditionByToken[token] == s.conditionByToken[token];
    }
  }

  ghost predicate AllFresh(s: CatalogState, ps: seq<Pair>)
    decreases ps
  {
    ps == [] || (Fresh(s, ps[0]) && AllFresh(Register(s, ps[0]), ps[1..]))
  }

  function LastWrites(ps: seq<Pair>): map<string, Pair> {
    if ps == [] then map[] else LastWrites(ps[..|ps| - 1])[ps[|ps| - 1].conditionId := ps[|ps| - 1]]
  }

  lemma {:induction false} RegisterAllLast(s: CatalogState, ps: seq<Pair>)
    requires ps != []
    ensures RegisterAll(s, ps) == Register(RegisterAll(s, ps[..|ps| - 1]), ps[|ps| - 1])
    decreases ps
  {
    if |ps| > 1 {
      RegisterAllLast(Register(s, ps[0]), ps[1..]);
      assert ps[1..][..|ps| - 2] == ps[..|ps| - 1][1..];
    }
  }

  /** Any sequence of registers that never shares a token leaves the catalog consistent, over the last pair registered
      for each condition. */
  lemma {:induction false} RegistersStayConsistent(s: CatalogState, ps: seq<Pair>, resolve: Resolver)
    requires Consistent(s, resolve) && AllFresh(s, ps)
    ensures Consistent(RegisterAll(s, ps), resolve)
    decreases ps
  {
    if ps != [] {
      RegisterKeepsConsistentExactly(s, ps[0], resolve);
      RegistersStayConsistent(Register(s, ps[0]), ps[1..], resolve);
    }
  }

  lemma {:induction false} RegistersKeepLastWrites(ps: seq<Pair>)
    ensures RegisterAll(EMPTY, ps).byCondition == LastWrites(ps)
    decreases ps
  {
    if ps != [] {
      RegisterAllLast(EMPTY, ps);
      RegistersKeepLastWrites(ps[..|ps| - 1]);
    }
  }

  /** The first of them names `c`, and none up to there names `d`. */
  ghost predicate NamedBefore(ps: seq<Pair>, c: string, d: string) {
    exists m :: 0 <= m < |ps| && ps[m].conditionId == c && forall l | 0 <= l <= m :: ps[l].conditionId != d
  }

  lemma NamedBeforeStays(ps: seq<Pair>, p: Pair, c: string, d: string)
    requires NamedBefore(ps, c, d)
    ensures NamedBefore(ps + [p], c, d)
  {
    var m :| 0 <= m < |ps| && ps[m].conditionId == c && forall l | 0 <= l <= m :: ps[l].conditionId != d;
    assert (ps + [p])[m] == ps[m];
  }

  ghost predicate InFirstOrder(order: seq<string>, ps: seq<Pair>) {
    && (forall c :: c in order <==> exists p :: p in ps && p.conditionId == c)
    && (forall j, k | 0 <= j < k < |order| :: NamedBefore(ps, order[j], order[k]))
  }

  lemma OneMoreRegister(order: seq<string>, ps: seq<Pair>, p: Pair)
    requires InFirstOrder(order, ps)
    ensures InFirstOrder(if p.conditionId in order then order else order + [p.conditionId], ps + [p])
  {
    var c, all := p.conditionId, ps + [p];
    var order' := if c in order then order else order + [c];
    forall d ensures d in order' <==> exists q :: q in all && q.conditionId == d {
      if d == c {
        assert p in all;
      }
      if q :| q in all && q.conditionId == d {
        assert q in ps || q == p;
      }
      if d in order {
        var q :| q in ps && q.conditionId == d;
        assert q in all;
      }
    }
    forall j, k | 0 <= j < k < |order'| ensures NamedBefore(all, order'[j], order'[k]) {
      if k < |order| {
        NamedBeforeStays(ps, p, order[j], order[k]);
      } else {
        assert order'[j] == order[j] && order[j] in order;
        var q :| q in ps && q.conditionId == order[j];
        var m :| 0 <= m < |ps| && ps[m] == q;
        forall l | 0 <= l <= m ensures all[l].conditionId != c {
          assert all[l] == ps[l] && ps[l] in ps;
        }
        assert all[m].conditionId == order'[j];
      }
    }
  }

  /** The dictionary lists its conditions in the order in which each was first registered. */
  lemma {:induction false} RegistersKeepOrder(ps: seq<Pair>)
    ensures InFirstOrder(RegisterAll(EMPTY, ps).order, ps)
    ensures Listed(RegisterAll(EMPTY, ps))
    decreases ps
  {
    if ps != [] {
      var init, p := ps[..|ps| - 1], ps[|ps| - 1];
      RegisterAllLast(EMPTY, ps);
      RegistersKeepOrder(init);
      OneMoreRegister(RegisterAll(EMPTY, init).order, init, p);
      RegisterLists(RegisterAll(EMPTY, init), p);
      assert ps == init + [p];
    }
  }

  ghost predicate Listed(s: CatalogState) {
    forall c :: c in s.order <==> c in s.byCondition
  }

  lemma RegisterLists(s: CatalogState, p: Pair)
    requires Listed(s)
    ensures Listed(Register(s, p))
    ensures Register(s, p).order == if p.conditionId in s.order then s.order else s.order + [p.conditionId]
  {
    var s' := Register(s, p);
    assert p.conditionId in s.order <==> p.conditionId in s.byCondition;
    forall c ensures c in s'.order <==> c in s'.byCondition {
      assert c in s.order <==> c in s.byCondition;
    }
  }

  lemma {:induction false} ScanTokenFinds(ps: seq<Pair>, token: string)
    ensures ScanToken(ps, token).None? ==> forall k | 0 <= k < |ps| :: token !in ps[k].Tokens()
    ensures ScanToken(ps, token).Some? ==>
            ScanToken(ps, token).value in ps && token in ScanToken(ps, token).value.Tokens()
  {
    if ps != [] && token !in ps[0].Tokens() {
      ScanTokenFinds(ps[1..], token);
    }
  }

  /** The reverse dictionary answers as the scan does. */
  lemma ByTokenScans(s: CatalogState, resolve: Resolver, token: string)
    requires Consistent(s, resolve)
    ensures ByToken(s, token) == ScanToken(Pairs(s), token)
  {
    var ps := Pairs(s);
    if token in s.conditionByToken {
      var c := s.conditionByToken[token];
      assert Owns(s.byCondition, c, token);
      assert c in s.order;
      var k :| 0 <= k < |s.order| && s.order[k] == c;
      assert token in ps[k].Tokens();
    }
    ScanTokenFinds(ps, token);
    var found := ScanToken(ps, token);
    if found.Some? {
      assert Owns(s.byCondition, found.value.conditionId, token);
    }
  }

  /** Two conditions that claim one token: the reverse dictionary follows the last, the scan the first; when the first
      is registered anew the token is lost although the second still holds it. */
  lemma SharedTokenIsLost()
    ensures
      var first, second := Pair("a", "m", "5m", "t", "u"), Pair("b", "n", "5m", "t", "v");
      var s := RegisterAll(EMPTY, [first, second]);
      && Ordered(s) && ByToken(s, "t") == Some(second) && ScanToken(Pairs(s), "t") == Some(first)
      && Owns(Register(s, first.(up := "w")).byCondition, "b", "t")
      && ByToken(Register(s, first.(up := "w")), "t") == None
  {
    var first, second := Pair("a", "m", "5m", "t", "u"), Pair("b", "n", "5m", "t", "v");
    var s1 := Register(EMPTY, first);
    var s2 := Register(s1, second);
    assert RegisterAll(EMPTY, [first, second]) == s2 by {
      assert [first, second][1..] == [second] && [second][1..] == [];
      assert RegisterAll(s1, [second]) == RegisterAll(s2, []);
    }
    RegisterOrders(EMPTY, first);
    RegisterOrders(s1, second);
    assert s2.order == ["a", "b"];
    assert Pairs(s2)[0] == first;
    assert second.Tokens() == {"t", "v"} && s2.conditionByToken["t"] == "b";
    var s3 := Register(s2, first.(up := "w"));
    assert "t" in first.Tokens() && "t" !in s3.conditionByToken;
    assert s3.byCondition["b"] == second && "t" in second.Tokens();
  }

  // ---------- the catalog object ----------

  lemma ScanTimeframeGrows(ps: seq<Pair>, k: nat, resolve: Resolver, id: string)
    requires k < |ps|
    ensures ScanTimeframe(ps[..k + 1], resolve, id) ==
            if Names(ps[k], resolve, id) then Some(ps[k].timeframe) else ScanTimeframe(ps[..k], resolve, id)
  {
    assert ps[..k + 1][..k] == ps[..k];
  }

  function Noted(index: map<string, string>, id: Option<string>, timeframe: string): map<string, string> {
    if id.Some? then index[id.value := timeframe] else index
  }

  lemma IndexGrows(index: map<string, string>, index': map<string, string>, ps: seq<Pair>, k: nat, resolve: Resolver)
    requires k < |ps| && Indexed(ps[..k], Some(index), resolve)
    requires
      var p := ps[k];
      index' == Noted(Noted(index, resolve(p.conditionId, p.up), p.timeframe), resolve(p.conditionId, p.down),
        p.timeframe)
    ensures Indexed(ps[..k + 1], Some(index'), resolve)
  {
    forall id ensures Get(index', id) == ScanTimeframe(ps[..k + 1], resolve, id) {
      ScanTimeframeGrows(ps, k, resolve, id);
      assert Get(index, id) == ScanTimeframe(ps[..k], resolve, id);
    }
  }

  lemma {:induction false} ScanMarketSkips(ps: seq<Pair>, k: nat, resolve: Resolver, id: string)
    requires k <= |ps| && forall j | 0 <= j < k :: !Names(ps[j], resolve, id)
    ensures ScanMarket(ps, resolve, id) == ScanMarket(ps[k..], resolve, id)
  {
    if k > 0 {
      ScanMarketSkips(ps[1..], k - 1, resolve, id);
      assert ps[1..][k - 1..] == ps[k..];
    } else {
      assert ps[0..] == ps;
    }
  }

  lemma PopTwice(m: map<string, string>, x: string, y: string)
    ensures m - {x} - {y} == m - {x, y}
  {
  }

  class MarketCatalog {
    const resolver: Resolver
    var conditions: seq<string>
    var byCondition: map<string, Pair>
    var conditionByToken: map<string, string>
    var instrumentIdByToken: map<string, string>
    var timeframeIndex: Option<map<string, string>>

    function State(): CatalogState
      reads this
    {
      CatalogState(conditions, byCondition, conditionByToken, instrumentIdByToken, timeframeIndex)
    }

    constructor (resolver: Resolver)
      ensures State() == EMPTY && Consistent(State(), resolver) && this.resolver == resolver
    {
      this.resolver := resolver;
      conditions, byCondition, conditionByToken, instrumentIdByToken, timeframeIndex := [], map[], map[], map[], None;
    }

    method RegisterPair(p: Pair)
      modifies this
      ensures State() == Register(old(State()), p)
    {
      if p.conditionId in byCondition {
        var previous := byCondition[p.conditionId];
        PopTwice(conditionByToken, previous.up, previous.down);
        PopTwice(instrumentIdByToken, previous.up, previous.down);
        conditionByToken := conditionByToken - {previous.up} - {previous.down};
        instrumentIdByToken := instrumentIdByToken - {previous.up} - {previous.down};
      } else {
        conditions := conditions + [p.conditionId];
        assert conditionByToken - {} == conditionByToken && instrumentIdByToken - {} == instrumentIdByToken;
      }
      byCondition := byCondition[p.conditionId := p];
      conditionByToken := conditionByToken[p.up := p.conditionId];
      conditionByToken := conditionByToken[p.down := p.conditionId];
      PopTwice(instrumentIdByToken, p.up, p.down);
      instrumentIdByToken := instrumentIdByToken - {p.up} - {p.down};
      timeframeIndex := None;
    }

    /** A memo hit, or the owner's id, remembered for next time. */
    method InstrumentIdForToken(token: string) returns (id: Option<string>)
      requires Consistent(State(), resolver)
      modifies `instrumentIdByToken
      ensures Consistent(State(), resolver)
      ensures id == ScanInstrument(Pairs(old(State())), resolver, token)
    {
      ByTokenScans(State(), resolver, token);
      if token in instrumentIdByToken {
        id := Some(instrumentIdByToken[token]);
        assert Owns(byCondition, conditionByToken[token], token);
        return;
      }
      var pair := ByToken(State(), token);
      if pair.None? {
        return None;
      }
      id := resolver(pair.value.conditionId, token);
      if id.Some? {
        instrumentIdByToken := instrumentIdByToken[token := id.value];
      }
    }

    /** In a consistent catalog a pair's own tokens resolve under its own condition. */
    lemma OwnTokens(k: nat)
      requires Consistent(State(), resolver) && k < |conditions|
      ensures conditions[k] in byCondition && Pairs(State())[k] == byCondition[conditions[k]]
      ensures forall token | token in Pairs(State())[k].Tokens() ::
                ScanInstrument(Pairs(State()), resolver, token) == resolver(conditions[k], token)
    {
      assert conditions[k] in conditions;
      var p := byCondition[conditions[k]];
      forall token | token in p.Tokens()
        ensures ScanInstrument(Pairs(State()), resolver, token) == resolver(conditions[k], token)
      {
        ByTokenScans(State(), resolver, token);
        assert Owns(byCondition, conditions[k], token);
      }
    }

    method MarketIdForInstrument(id: string) returns (marketId: Option<string>)
      requires Consistent(State(), resolver)
      modifies `instrumentIdByToken
      ensures Consistent(State(), resolver)
      ensures marketId == ScanMarket(Pairs(old(State())), resolver, id)
    {
      ghost var ps := Pairs(State());
      for k := 0 to |conditions|
        invariant Consistent(State(), resolver) && Pairs(State()) == ps
        invariant forall j | 0 <= j < k :: !Names(ps[j], resolver, id)
      {
        OwnTokens(k);
        var pair := byCondition[conditions[k]];
        assert pair.up in pair.Tokens() && pair.down in pair.Tokens();
        ScanMarketSkips(ps, k, resolver, id);
        var upId := InstrumentIdForToken(pair.up);
        if upId == Some(id) {
          return Some(pair.marketId);
        }
        var downId := InstrumentIdForToken(pair.down);
        if downId == Some(id) {
          return Some(pair.marketId);
        }
      }
      ScanMarketSkips(ps, |ps|, resolver, id);
      return None;
    }

    /** The k-th market and the instrument ids of its tokens. */
    method PairIds(k: nat) returns (pair: Pair, upId: Option<string>, downId: Option<string>)
      requires Consistent(State(), resolver) && k < |conditions|
      modifies `instrumentIdByToken
      ensures Consistent(State(), resolver) && pair == Pairs(State())[k]
      ensures upId == resolver(pair.conditionId, pair.up) && downId == resolver(pair.conditionId, pair.down)
    {
      OwnTokens(k);
      pair := byCondition[conditions[k]];
      assert pair.up in pair.Tokens() && pair.down in pair.Tokens();
      upId := InstrumentIdForToken(pair.up);
      downId := InstrumentIdForToken(pair.down);
    }

    method BuildTimeframeIndex()
      requires Consistent(State(), resolver)
      modifies `instrumentIdByToken, `timeframeIndex
      ensures Consistent(State(), resolver) && timeframeIndex.Some?
    {
      ghost var ps := Pairs(State());
      var index: map<string, string> := map[];
      for k := 0 to |conditions|
        invariant Consistent(State(), resolver) && Pairs(State()) == ps
        invariant Indexed(ps[..k], Some(index), resolver)
        modifies `instrumentIdByToken
      {
        ghost var before := index;
        var pair, upId, downId := PairIds(k);
        if upId.Some? {
          index := index[upId.value := pair.timeframe];
        }
        if downId.Some? {
          index := index[downId.value := pair.timeframe];
        }
        IndexGrows(before, index, ps, k, resolver);
      }
      assert ps[..|ps|] == ps;
      timeframeIndex := Some(index);
    }

    method TimeframeForInstrument(id: string) returns (timeframe: Option<string>)
      requires Consistent(State(), resolver)
      modifies `instrumentIdByToken, `timeframeIndex
      ensures Consistent(State(), resolver)
      ensures timeframe == ScanTimeframe(Pairs(old(State())), resolver, id)
    {
      ghost var ps := Pairs(State());
      if timeframeIndex.None? {
        BuildTimeframeIndex();
        assert Pairs(State()) == ps;
      }
      timeframe := Get(timeframeIndex.value, id);
    }
  }
}

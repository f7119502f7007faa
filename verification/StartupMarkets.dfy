/** What becomes of the markets an actor has when it starts: those of an actor that loaded nothing stay active and are
    listed by the startup replay; those that were loaded wait until an instrument confirms them, or are exited. */
module StartupMarkets {
  import opened Options
  import opened InstrumentMarkets
  import opened MarketRotation
  import opened RotationProtocol

  /** The condition has a market and its end has not come. */
  predicate Unexpired(markets: map<string, Market>, c: string, now: int) {
    c in markets && (markets[c].endTs.None? || now < markets[c].endTs.value)
  }

  /** A start keeps the unexpired markets of an actor that loaded nothing, sets those of a loaded one aside for the
      replay, and leaves the expired to be exited by it; there is a replay exactly when there was a market. */
  lemma StartExactly(s: RotationState, now: int)
    requires Inv(s) && !s.scheduled
    ensures
      var s' := OnStart(s, now);
      && (forall c :: c in s'.active <==> !s.loaded && Unexpired(s.active, c, now))
      && (forall c | c in s'.active :: s'.active[c] == s.active[c])
      && (forall c :: c in s'.startupRestored <==> s.loaded && Unexpired(s.active, c, now))
      && (forall c :: c in s'.startupExited <==> c in s.active && !Unexpired(s.active, c, now))
      && (s'.scheduled <==> s.active.Keys != {})
      && s'.generation == s.generation + 1
      && (s'.builder, s'.epoch, s'.loaded, s'.metadata) == (s.builder, s.epoch, s.loaded, s.metadata)
  {
    var expired := ExpiredIds(s.active, now);
    assert forall c :: c in s.active - expired <==> Unexpired(s.active, c, now);
    if s.active.Keys != {} {
      var c :| c in s.active.Keys;
      assert c in expired || c in (s.active - expired).Keys;
    }
  }

  // ---------- actors that loaded nothing ----------

  ghost predicate Fresh(s: RotationState) {
    !s.loaded && s.startupRestored == {}
  }

  lemma StepStaysFresh(s: RotationState, e: Callback)
    requires Fresh(s) && !e.Load?
    ensures Fresh(Step(s, e).0)
  {
    if e.Arrive? {
      var (b1, terminal) := RecordTerminal(s.builder, e.instrument);
      if terminal.Some? {
        var gone := TerminalMoves(s.(builder := b1), terminal.value, e.now);
      }
    }
  }

  lemma {:induction false} RunStaysFresh(s: RotationState, es: seq<Callback>)
    requires Fresh(s) && NoLoad(es)
    ensures Fresh(Run(s, es).0)
    decreases es
  {
    if es != [] {
      assert !es[0].Load?;
      StepStaysFresh(s, es[0]);
      RunStaysFresh(Step(s, es[0]).0, es[1..]);
    }
  }

  /** Without a load nothing is ever set aside. */
  lemma NothingSetAside(startup: map<string, Market>, es: seq<Callback>)
    requires NoLoad(es)
    ensures Run(Initial(startup), es).0.startupRestored == {}
  {
    RunStaysFresh(Initial(startup), es);
  }

  // ---------- until the replay ----------

  /** The end is not before the horizon. */
  predicate OpenUntil(endTs: Option<int>, horizon: int) {
    endTs.None? || horizon <= endTs.value
  }

  /** The callback comes before the horizon, and an instrument of the condition that comes with it is active and open
      until the horizon. */
  predicate Spares(c: string, horizon: int, e: Callback) {
    match e
    case Arrive(i, now) =>
      && now < horizon
      && (i.conditionId == c && i.usable && i.payload.family.Some? ==>
            i.payload.status == Active && OpenUntil(i.payload.endTs, horizon))
    case Expiry(now) => now < horizon
    case _ => true
  }

  ghost predicate AllSpare(c: string, horizon: int, es: seq<Callback>) {
    forall k | 0 <= k < |es| :: Spares(c, horizon, es[k])
  }

  /** No replay of the generation is among the callbacks. */
  ghost predicate Unreplayed(generation: int, es: seq<Callback>) {
    forall k | 0 <= k < |es| :: es[k].Replay? ==> es[k].generation != generation
  }

  /** The condition is active, open until the horizon, and waits for no exit. */
  ghost predicate Secure(s: RotationState, c: string, horizon: int) {
    c in s.active && OpenUntil(s.active[c].endTs, horizon) && c !in s.startupExited && c !in s.startupRestored
  }

  lemma ArrivalStaysSecure(s: RotationState, i: Instrument, now: int, c: string, horizon: int)
    requires Inv(s) && Secure(s, c, horizon) && Spares(c, horizon, Arrive(i, now))
    ensures Secure(OnInstrument(s, i, now).0, c, horizon)
  {
    var (b1, terminal) := RecordTerminal(s.builder, i);
    var (b2, market) := AddInstrument(b1, i);
    if terminal.Some? {
      var gone := TerminalMoves(s.(builder := b1), terminal.value, now);
    } else if market.Some? {
      if !market.value.IsActive() || market.value.IsExpired(now) {
        var gone := RefusalMoves(s.(builder := b2), market.value, now);
      } else {
        var gone, came := ActivationMoves(s.(builder := b2), market.value, now);
      }
    }
  }

  lemma StepStaysSecure(s: RotationState, e: Callback, c: string, horizon: int)
    requires Inv(s) && InSegment(e) && Secure(s, c, horizon) && Spares(c, horizon, e) && Unreplayed(s.generation, [e])
    ensures Secure(Step(s, e).0, c, horizon)
  {
    match e {
      case Arrive(i, now) => ArrivalStaysSecure(s, i, now, c, horizon);
      case Expiry(now) => ExpiryMoves(s, now);
      case Replay(_, _) => assert [e][0] == e;
    }
  }

  /** Through callbacks that replay nothing the actor stays scheduled, and what was to be exited stays so. */
  ghost predicate StillDue(s: RotationState, s': RotationState, c: string) {
    && Inv(s') && s'.scheduled && s'.generation == s.generation
    && (c in s.startupExited ==> c in s'.startupExited)
  }

  lemma StepStillDue(s: RotationState, e: Callback, c: string)
    requires Inv(s) && s.scheduled && InSegment(e) && Unreplayed(s.generation, [e])
    ensures StillDue(s, Step(s, e).0, c)
  {
    assert [e][0] == e;
    StepKeepsInv(s, e);
    StepKeepsGeneration(s, e);
    match e {
      case Arrive(i, now) =>
        var gone, came := ArrivalMoves(s, i, now);
      case Expiry(now) => ExpiryMoves(s, now);
      case Replay(_, _) =>
    }
  }

  lemma {:induction false} RunStillDue(s: RotationState, es: seq<Callback>, c: string)
    requires Inv(s) && s.scheduled && Segment(es) && Unreplayed(s.generation, es)
    ensures StillDue(s, Run(s, es).0, c)
    decreases es
  {
    if es != [] {
      assert InSegment(es[0]) && Unreplayed(s.generation, [es[0]]);
      StepStillDue(s, es[0], c);
      RunStillDue(Step(s, es[0]).0, es[1..], c);
    }
  }

  lemma {:induction false} RunStaysSecure(s: RotationState, es: seq<Callback>, c: string, horizon: int)
    requires Inv(s) && s.scheduled && Segment(es) && Unreplayed(s.generation, es)
    requires Secure(s, c, horizon) && AllSpare(c, horizon, es)
    ensures Secure(Run(s, es).0, c, horizon)
    decreases es
  {
    if es != [] {
      assert InSegment(es[0]) && Unreplayed(s.generation, [es[0]]) && Spares(c, horizon, es[0]);
      StepStaysSecure(s, es[0], c, horizon);
      StepStillDue(s, es[0], c);
      RunStaysSecure(Step(s, es[0]).0, es[1..], c, horizon);
    }
  }

  /** The one event of a replay that comes after these callbacks. */
  ghost predicate Replays(s: RotationState, es: seq<Callback>, now: int, ev: UniverseEvent) {
    var s' := Run(s, es).0;
    Step(s', Replay(s.generation, now)).1 == [ev] && ev.epoch == s'.epoch + 1
  }

  lemma ReplayAfter(s: RotationState, es: seq<Callback>, now: int, c: string) returns (ev: UniverseEvent)
    requires Inv(s) && s.scheduled && Segment(es) && Unreplayed(s.generation, es)
    ensures Replays(s, es, now, ev)
    ensures
      var s' := Run(s, es).0;
      && (c in ev.active <==> c in s'.active) && (c in ev.entered <==> c in s'.active)
      && (c in ev.exited <==> c in s'.startupExited || c in s'.startupRestored)
      && (c in s.startupExited ==> c in s'.startupExited)
  {
    RunStillDue(s, es, c);
    var s' := Run(s, es).0;
    ev := UniverseEvent(s'.epoch + 1, s'.active.Keys, s'.active.Keys, s'.startupExited + s'.startupRestored);
    assert Step(s', Replay(s.generation, now)).1 == [ev];
  }

  /** A new actor that loaded nothing, started, and its replay: a startup market that is not expired, refused or made
      terminal before the replay is listed and entered by it and not exited; one that had expired at the start is
      exited. */
  lemma ReplayListsStartup(startup: map<string, Market>, now: int, es: seq<Callback>, later: int, c: string,
                           horizon: int)
    returns (ev: UniverseEvent)
    requires c in startup && c != "" && Segment(es) && Unreplayed(1, es)
    ensures Replays(OnStart(Initial(startup), now), es, later, ev)
    ensures now < horizon && OpenUntil(startup[c].endTs, horizon) && AllSpare(c, horizon, es) ==>
            c in ev.active && c in ev.entered && c !in ev.exited
    ensures !Unexpired(startup, c, now) ==> c in ev.exited
  {
    var s := Initial(startup);
    var s1 := OnStart(s, now);
    assert c in s.active;
    StartExactly(s, now);
    StepKeepsInv(s, Start(now));
    ev := ReplayAfter(s1, es, later, c);
    if now < horizon && OpenUntil(startup[c].endTs, horizon) && AllSpare(c, horizon, es) {
      RunStaysSecure(s1, es, c, horizon);
    }
  }

  /** The same for any start of an actor that loaded nothing, in the middle of any run. */
  lemma ReplayListsActive(s: RotationState, now: int, es: seq<Callback>, later: int, c: string, horizon: int)
    returns (ev: UniverseEvent)
    requires Inv(s) && !s.loaded && !s.scheduled && c in s.active && OpenUntil(s.active[c].endTs, horizon)
    requires now < horizon && Segment(es) && Unreplayed(s.generation + 1, es) && AllSpare(c, horizon, es)
    ensures Replays(OnStart(s, now), es, later, ev)
    ensures c in ev.active && c in ev.entered && c !in ev.exited
  {
    var s1 := OnStart(s, now);
    StartExactly(s, now);
    StepKeepsInv(s, Start(now));
    ev := ReplayAfter(s1, es, later, c);
    RunStaysSecure(s1, es, c, horizon);
  }

  // ---------- actors that loaded ----------

  /** No instrument of the condition arrives. */
  ghost predicate Unconfirmed(c: string, es: seq<Callback>) {
    forall k | 0 <= k < |es| :: es[k].Arrive? ==> es[k].instrument.conditionId != c
  }

  lemma StepLeavesAside(s: RotationState, e: Callback, c: string)
    requires Inv(s) && InSegment(e) && Unreplayed(s.generation, [e]) && Unconfirmed(c, [e])
    requires c in s.startupRestored
    ensures c in Step(s, e).0.startupRestored && c !in Step(s, e).0.active
  {
    assert [e][0] == e;
    match e {
      case Arrive(i, now) =>
        var (b1, terminal) := RecordTerminal(s.builder, i);
        var (b2, market) := AddInstrument(b1, i);
        if terminal.Some? {
          var gone := TerminalMoves(s.(builder := b1), terminal.value, now);
        } else if market.Some? && market.value.IsActive() && !market.value.IsExpired(now) {
          var gone, came := ActivationMoves(s.(builder := b2), market.value, now);
        } else if market.Some? {
          var gone := RefusalMoves(s.(builder := b2), market.value, now);
        }
      case Expiry(now) => ExpiryMoves(s, now);
      case Replay(_, _) =>
    }
  }

  lemma {:induction false} RunLeavesAside(s: RotationState, es: seq<Callback>, c: string)
    requires Inv(s) && s.scheduled && Segment(es) && Unreplayed(s.generation, es) && Unconfirmed(c, es)
    requires c in s.startupRestored
    ensures c in Run(s, es).0.startupRestored && c !in Run(s, es).0.active
    decreases es
  {
    if es != [] {
      assert InSegment(es[0]) && Unreplayed(s.generation, [es[0]]) && Unconfirmed(c, [es[0]]);
      StepLeavesAside(s, es[0], c);
      StepStillDue(s, es[0], c);
      RunLeavesAside(Step(s, es[0]).0, es[1..], c);
    }
  }

  /** A loaded market of which no instrument arrives before the replay is exited by it. */
  lemma UnconfirmedIsExited(s: RotationState, now: int, es: seq<Callback>, later: int, c: string)
    returns (ev: UniverseEvent)
    requires Inv(s) && s.loaded && !s.scheduled && c in s.active
    requires Segment(es) && Unreplayed(s.generation + 1, es) && Unconfirmed(c, es)
    ensures Replays(OnStart(s, now), es, later, ev)
    ensures c in ev.exited && (Unexpired(s.active, c, now) ==> c !in ev.active)
  {
    var s1 := OnStart(s, now);
    StartExactly(s, now);
    StepKeepsInv(s, Start(now));
    ev := ReplayAfter(s1, es, later, c);
    if Unexpired(s.active, c, now) {
      RunLeavesAside(s1, es, c);
    }
  }

  // ---------- exits while the replay is pending ----------

  /** The instrument says that its condition is closed, resolved or cancelled. */
  predicate ClosesCondition(i: Instrument) {
    i.usable && i.payload.family.Some? && i.payload.status in {Closed, Resolved, Cancelled}
  }

  /** What a closing instrument takes out of the active set while a replay is pending, the replay exits again: the
      condition itself and whatever expired with it. */
  lemma TerminalExitIsReplayed(s: RotationState, i: Instrument, now: int, es: seq<Callback>, later: int, c: string)
    returns (ev: UniverseEvent)
    requires Inv(s) && s.scheduled && ClosesCondition(i) && Segment(es) && Unreplayed(s.generation, es)
    requires c in s.active && (c == i.conditionId || !Unexpired(s.active, c, now))
    ensures Replays(OnInstrument(s, i, now).0, es, later, ev) && c in ev.exited
    ensures
      var out := OnInstrument(s, i, now).1;
      |out| == 1 && c in out[0].exited
  {
    var e := Arrive(i, now);
    var s1 := OnInstrument(s, i, now).0;
    var (b1, terminal) := RecordTerminal(s.builder, i);
    var gone := TerminalMoves(s.(builder := b1), terminal.value, now);
    assert c in gone;
    StepKeepsInv(s, e);
    StepKeepsGeneration(s, e);
    TerminalMerges(s.(builder := b1), i.conditionId, now, c);
    ev := ReplayAfter(s1, es, later, c);
  }

  lemma TerminalMerges(s: RotationState, terminal: string, now: int, c: string)
    requires s.scheduled && c in s.active && (c == terminal || !Unexpired(s.active, c, now))
    ensures c in OnTerminal(s, terminal, now).0.startupExited
  {
    var (s1, expired) := RetireExpired(s, now);
    var (s2, exited) := Retire(s1, terminal, expired);
    assert c in exited;
  }

  /** What an event says it exits; nothing where there is none. */
  function ExitsOf(evs: seq<UniverseEvent>): set<string> {
    if evs == [] then {} else evs[0].exited
  }

  function EntersOf(evs: seq<UniverseEvent>): set<string> {
    if evs == [] then {} else evs[0].entered
  }

  /** Of all callbacks before the replay only a closing instrument adds to its exits, exactly what it takes out itself;
      and only an entry confirms what was set aside. */
  lemma PendingExactly(s: RotationState, e: Callback)
    requires Inv(s) && s.scheduled && InSegment(e) && Unreplayed(s.generation, [e])
    ensures
      var (s', out) := Step(s, e);
      && s'.startupExited ==
           (if e.Arrive? && ClosesCondition(e.instrument) then s.startupExited + ExitsOf(out) else s.startupExited)
      && s'.startupRestored == s.startupRestored - EntersOf(out)
  {
    assert [e][0] == e;
    match e {
      case Arrive(i, now) => ArrivalPends(s, i, now);
      case Expiry(now) => ExpiryMoves(s, now);
      case Replay(_, _) =>
    }
  }

  lemma ArrivalPends(s: RotationState, i: Instrument, now: int)
    requires Inv(s) && s.scheduled
    ensures
      var (s', out) := OnInstrument(s, i, now);
      && s'.startupExited ==
           (if ClosesCondition(i) then s.startupExited + ExitsOf(out) else s.startupExited)
      && s'.startupRestored == s.startupRestored - EntersOf(out)
  {
    var (b1, terminal) := RecordTerminal(s.builder, i);
    var (b2, market) := AddInstrument(b1, i);
    if terminal.Some? {
      var gone := TerminalMoves(s.(builder := b1), terminal.value, now);
      var (s1, expired) := RetireExpired(s.(builder := b1), now);
      assert Retire(s1, terminal.value, expired).1 == gone;
    } else if market.Some? {
      if !market.value.IsActive() || market.value.IsExpired(now) {
        var gone := RefusalMoves(s.(builder := b2), market.value, now);
      } else {
        var gone, came := ActivationMoves(s.(builder := b2), market.value, now);
        ActivationConfirms(s.(builder := b2), market.value, now);
      }
    }
  }

  lemma ActivationConfirms(s: RotationState, m: Market, now: int)
    requires m.IsActive() && !m.IsExpired(now) && s.startupRestored !! s.active.Keys
    ensures
      var (s', out) := OnMarket(s, m, now);
      s'.startupRestored == s.startupRestored - EntersOf(out)
  {
    var s1 := s.(active := s.active - ExpiredIds(s.active, now));
    assert OnMarket(s, m, now) == Activate(s1, m, ExpiredIds(s.active, now));
  }

  /** Some callback is a closing instrument whose event exits the condition. */
  ghost predicate ClosedOut(s: RotationState, es: seq<Callback>, c: string)
    decreases es
  {
    es != [] &&
    var (s1, out) := Step(s, es[0]);
    (es[0].Arrive? && ClosesCondition(es[0].instrument) && c in ExitsOf(out)) || ClosedOut(s1, es[1..], c)
  }

  lemma {:induction false} PendingThrough(s: RotationState, es: seq<Callback>, c: string)
    requires Inv(s) && s.scheduled && Segment(es) && Unreplayed(s.generation, es)
    ensures
      var (s', out) := Run(s, es);
      && (c in s'.startupExited <==> c in s.startupExited || ClosedOut(s, es, c))
      && (c in s'.startupRestored <==> c in s.startupRestored && forall k | 0 <= k < |out| :: c !in out[k].entered)
    decreases es
  {
    if es != [] {
      assert InSegment(es[0]) && Unreplayed(s.generation, [es[0]]);
      PendingExactly(s, es[0]);
      StepStillDue(s, es[0], c);
      StepShape(s, es[0]);
      var (s1, out) := Step(s, es[0]);
      var rest := Run(s1, es[1..]).1;
      PendingThrough(s1, es[1..], c);
      EnteredInEither(out, rest, c);
    }
  }

  lemma EnteredInEither(a: seq<UniverseEvent>, b: seq<UniverseEvent>, c: string)
    requires |a| <= 1
    ensures (forall k | 0 <= k < |a + b| :: c !in (a + b)[k].entered)
            <==> c !in EntersOf(a) && forall k | 0 <= k < |b| :: c !in b[k].entered
  {
    var all := a + b;
    assert a != [] ==> all[0] == a[0];
    forall k | 0 <= k < |b| ensures all[|a| + k] == b[k] {
    }
    forall k | |a| <= k < |all| ensures all[k] == b[k - |a|] {
    }
  }

  /** The replay exits exactly what had expired at the start, what closing instruments took out since, and what was set
      aside and has not entered since; it lists and enters exactly what is active. */
  lemma ReplayExactly(s: RotationState, now: int, es: seq<Callback>, later: int, c: string) returns (ev: UniverseEvent)
    requires Inv(s) && !s.scheduled && s.active.Keys != {} && Segment(es) && Unreplayed(s.generation + 1, es)
    ensures
      var s1 := OnStart(s, now);
      var (s', out) := Run(s1, es);
      && Replays(s1, es, later, ev)
      && (c in ev.exited <==>
           || (c in s.active && !Unexpired(s.active, c, now))
           || ClosedOut(s1, es, c)
           || (s.loaded && Unexpired(s.active, c, now) && forall k | 0 <= k < |out| :: c !in out[k].entered))
      && (c in ev.active <==> c in s'.active) && (c in ev.entered <==> c in s'.active)
  {
    var s1 := OnStart(s, now);
    StartExactly(s, now);
    StepKeepsInv(s, Start(now));
    ev := ReplayAfter(s1, es, later, c);
    PendingThrough(s1, es, c);
  }

  // ---------- what each callback does to the active set ----------

  /** What an instrument brings that is not closing its condition: the market it completes, if it does. */
  function Completed(s: RotationState, i: Instrument): Option<Market> {
    AddInstrument(s.builder, i).1
  }

  /** Between starts and stops: the timer leaves what has not ended; so does a closing instrument, but for its own
      condition; an instrument that completes a market leaves that and its own condition with it, if the market is
      active and has not ended; one that completes none leaves everything, and so does a replay. */
  lemma ActiveExactly(s: RotationState, e: Callback, c: string)
    requires InSegment(e)
    ensures
      var active := Step(s, e).0.active;
      match e
      case Expiry(now) => c in active <==> Unexpired(s.active, c, now)
      case Replay(_, _) => c in active <==> c in s.active
      case Arrive(i, now) =>
        if ClosesCondition(i) then c in active <==> Unexpired(s.active, c, now) && c != i.conditionId
        else if Completed(s, i).None? then c in active <==> c in s.active
        else
          var m := Completed(s, i).value;
          if c != i.conditionId then c in active <==> Unexpired(s.active, c, now)
          else c in active <==> m.status == Active && (m.endTs == None || now < m.endTs.value)
      case _ => true
    ensures e.Arrive? && e.instrument.conditionId != c && c in Step(s, e).0.active ==>
      c in s.active && Step(s, e).0.active[c] == s.active[c]
  {
    match e {
      case Arrive(i, now) => ArrivalExactly(s, i, now, c);
      case Expiry(now) => ExpiryMoves(s, now);
      case Replay(_, _) =>
    }
  }

  lemma ArrivalExactly(s: RotationState, i: Instrument, now: int, c: string)
    ensures
      var active := OnInstrument(s, i, now).0.active;
      if ClosesCondition(i) then c in active <==> Unexpired(s.active, c, now) && c != i.conditionId
      else if Completed(s, i).None? then c in active <==> c in s.active
      else
        var m := Completed(s, i).value;
        if c != i.conditionId then c in active <==> Unexpired(s.active, c, now)
        else c in active <==> m.status == Active && (m.endTs == None || now < m.endTs.value)
    ensures i.conditionId != c && c in OnInstrument(s, i, now).0.active ==>
      c in s.active && OnInstrument(s, i, now).0.active[c] == s.active[c]
  {
    var (b1, terminal) := RecordTerminal(s.builder, i);
    var (b2, market) := AddInstrument(b1, i);
    if terminal.Some? {
      var gone := TerminalMoves(s.(builder := b1), terminal.value, now);
    } else if market.Some? {
      assert b1 == s.builder;
      if !market.value.IsActive() || market.value.IsExpired(now) {
        var gone := RefusalMoves(s.(builder := b2), market.value, now);
      } else {
        var gone, came := ActivationMoves(s.(builder := b2), market.value, now);
      }
    }
  }

  // ---------- generations ----------

  function Lifecycles(es: seq<Callback>): nat {
    if es == [] then 0 else (if es[0].Start? || es[0].Stop? then 1 else 0) + Lifecycles(es[1..])
  }

  /** The generation counts the starts and stops, so a replay asked for before one of them is stale after it. */
  lemma {:induction false} GenerationCounts(s: RotationState, es: seq<Callback>)
    ensures Run(s, es).0.generation == s.generation + Lifecycles(es)
    decreases es
  {
    if es != [] {
      if es[0].Arrive? {
        var gone, came := ArrivalMoves(s, es[0].instrument, es[0].now);
      }
      GenerationCounts(Step(s, es[0]).0, es[1..]);
    }
  }

  lemma EarlierReplayIsStale(s: RotationState, es: seq<Callback>, generation: int, now: int)
    requires generation <= s.generation && Lifecycles(es) > 0
    ensures Step(Run(s, es).0, Replay(generation, now)) == (Run(s, es).0, [])
  {
    GenerationCounts(s, es);
  }
}

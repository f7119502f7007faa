/** The market rotation actor: which conditions are active, and the numbered universe events it publishes.

    The state and its callbacks are given twice: as values and functions, which the protocol theorems talk about, and as
    the actor class, whose methods update the fields and are proved equal to those functions. */
module MarketRotation {
  import opened Options
  import opened InstrumentMarkets

  datatype UniverseEvent = UniverseEvent(epoch: int, active: set<string>, entered: set<string>, exited: set<string>)

  /** `metadata` is an observation, not a field of the actor: the latest metadata published for each condition, as a
      subscriber that keeps the last message per condition holds it. */
  datatype RotationState = RotationState(
    builder: BuilderState,
    active: map<string, Market>,
    epoch: int,
    loaded: bool,
    scheduled: bool,
    startupExited: set<string>,
    startupRestored: set<string>,
    generation: int,
    replayGeneration: Option<int>,
    metadata: map<string, Market>)

  /** What `on_save` writes. */
  datatype Saved = Saved(epoch: int, terminal: set<string>, active: map<string, Market>)

  function ExpiredIds(active: map<string, Market>, now: int): set<string> {
    set c | c in active && active[c].IsExpired(now)
  }

  function ByCondition(markets: map<string, Market>): map<string, Market> {
    markets - {""}
  }

  function Initial(startup: map<string, Market>): RotationState {
    RotationState(EMPTY_BUILDER, ByCondition(startup), 0, false, false, {}, {}, 0, None, map[])
  }

  /** One universe event: the epoch advances and the event carries the active set of this very moment. */
  function Publish(s: RotationState, entered: set<string>, exited: set<string>): (RotationState, seq<UniverseEvent>) {
    (s.(epoch := s.epoch + 1), [UniverseEvent(s.epoch + 1, s.active.Keys, entered, exited)])
  }

  function PublishExits(s: RotationState, exited: set<string>): (RotationState, seq<UniverseEvent>) {
    if exited == {} then (s, []) else Publish(s, {}, exited)
  }

  function ScheduleReplay(s: RotationState, exited: set<string>): RotationState {
    if s.active.Keys == {} && exited == {} then s
    else s.(startupRestored := if s.loaded then s.active.Keys else {},
            startupExited := exited,
            replayGeneration := Some(s.generation),
            scheduled := true)
  }

  function OnStart(s: RotationState, now: int): RotationState {
    var exited := ExpiredIds(s.active, now);
    var s1 := ScheduleReplay(s.(generation := s.generation + 1, active := s.active - exited), exited);
    if s1.loaded then s1.(active := s1.active - s1.startupRestored) else s1
  }

  function OnStop(s: RotationState): RotationState {
    var s1 := s.(generation := s.generation + 1);
    if s.scheduled then
      s1.(scheduled := false, startupExited := {}, startupRestored := {}, replayGeneration := None)
    else s1
  }

  /** Drop one condition, noting it as exited only if it was active. */
  function Retire(s: RotationState, c: string, exited: set<string>): (RotationState, set<string>) {
    (s.(active := s.active - {c}), if c in s.active then exited + {c} else exited)
  }

  function RetireExpired(s: RotationState, now: int): (RotationState, set<string>) {
    var expired := ExpiredIds(s.active, now);
    (s.(active := s.active - expired), expired)
  }

  function MergeStartupExits(s: RotationState, exited: set<string>): RotationState {
    if s.scheduled then s.(startupExited := s.startupExited + exited) else s
  }

  function OnTerminal(s: RotationState, c: string, now: int): (RotationState, seq<UniverseEvent>) {
    var (s1, expired) := RetireExpired(s, now);
    var (s2, exited) := Retire(s1, c, expired);
    PublishExits(MergeStartupExits(s2, exited), exited)
  }

  function OnMarket(s: RotationState, m: Market, now: int): (RotationState, seq<UniverseEvent>) {
    var (s1, expired) := RetireExpired(s, now);
    if !m.IsActive() || m.IsExpired(now) then
      var (s2, exited) := Retire(s1, m.conditionId, expired);
      PublishExits(s2, exited)
    else
      Activate(s1, m, expired)
  }

  function Activate(s: RotationState, m: Market, exited: set<string>): (RotationState, seq<UniverseEvent>) {
    var c := m.conditionId;
    var isNew := c !in s.active;
    var changed := isNew || s.active[c].Signature() != m.Signature();
    var s1 := s.(startupRestored := s.startupRestored - {c},
                 active := s.active[c := m],
                 metadata := if changed then s.metadata[c := m] else s.metadata);
    var entered := if isNew then {c} else {};
    if entered == {} && exited == {} then (s1, []) else Publish(s1, entered, exited)
  }

  function OnInstrument(s: RotationState, i: Instrument, now: int): (RotationState, seq<UniverseEvent>) {
    var (b1, terminal) := RecordTerminal(s.builder, i);
    if terminal.Some? then OnTerminal(s.(builder := b1), terminal.value, now)
    else
      var (b2, market) := AddInstrument(b1, i);
      if market.None? then (s.(builder := b2), []) else OnMarket(s.(builder := b2), market.value, now)
  }

  predicate ReplayIsCurrent(s: RotationState, generation: int) {
    s.scheduled && s.replayGeneration == Some(generation) && s.generation == generation
  }

  function OnReplay(s: RotationState, generation: int): (RotationState, seq<UniverseEvent>) {
    if !ReplayIsCurrent(s, generation) then (s, [])
    else
      var exited := s.startupExited + s.startupRestored;
      var s1 := s.(scheduled := false, startupExited := {}, startupRestored := {}, replayGeneration := None,
                   metadata := s.metadata + s.active);
      Publish(s1, s1.active.Keys, exited)
  }

  function OnExpiry(s: RotationState, now: int): (RotationState, seq<UniverseEvent>) {
    var (s1, expired) := RetireExpired(s, now);
    PublishExits(s1, expired)
  }

  function OnSave(s: RotationState): Saved {
    Saved(s.epoch, s.builder.terminal, s.active)
  }

  function OnLoad(s: RotationState, saved: Saved): RotationState {
    s.(builder := RestoreTerminal(s.builder, saved.terminal),
       active := ByCondition(saved.active),
       epoch := if saved.epoch >= 0 then saved.epoch else s.epoch,
       loaded := true)
  }

  /** Everything the framework can call back, in any order. */
  datatype Callback =
    | Start(now: int)
    | Stop
    | Load(saved: Saved)
    | Arrive(instrument: Instrument, now: int)
    | Expiry(now: int)
    | Replay(generation: int, now: int)

  function Step(s: RotationState, e: Callback): (RotationState, seq<UniverseEvent>) {
    match e
    case Start(now) => (OnStart(s, now), [])
    case Stop => (OnStop(s), [])
    case Load(saved) => (OnLoad(s, saved), [])
    case Arrive(i, now) => OnInstrument(s, i, now)
    case Expiry(now) => OnExpiry(s, now)
    case Replay(generation, _) => OnReplay(s, generation)
  }

  function Run(s: RotationState, es: seq<Callback>): (RotationState, seq<UniverseEvent>)
    decreases es
  {
    if es == [] then (s, [])
    else
      var (s1, out) := Step(s, es[0]);
      var (s2, rest) := Run(s1, es[1..]);
      (s2, out + rest)
  }

  class MarketRotationActor {
    const builder: PolymarketInstrumentMarketBuilder
    var activeByCondition: map<string, Market>
    var epoch: int
    var loadedFromState: bool
    var startupReplayScheduled: bool
    var startupExitedIds: set<string>
    var startupRestoredIds: set<string>
    var lifecycleGeneration: int
    var startupReplayGeneration: Option<int>
    ghost var metadata: map<string, Market>
    ghost var published: seq<UniverseEvent>

    ghost function State(): RotationState
      reads this, builder
    {
      RotationState(builder.State(), activeByCondition, epoch, loadedFromState, startupReplayScheduled,
                    startupExitedIds, startupRestoredIds, lifecycleGeneration, startupReplayGeneration, metadata)
    }

    /** The callback did exactly `r`: it moved to its state and published its events. */
    twostate predicate Did(r: (RotationState, seq<UniverseEvent>))
      reads this, builder
    {
      State() == r.0 && published == old(published) + r.1
    }

    constructor (startupMarkets: map<string, Market>)
      ensures fresh(builder)
      ensures State() == Initial(startupMarkets) && published == []
    {
      builder := new PolymarketInstrumentMarketBuilder();
      activeByCondition := startupMarkets - {""};
      epoch, loadedFromState, startupReplayScheduled := 0, false, false;
      startupExitedIds, startupRestoredIds := {}, {};
      lifecycleGeneration, startupReplayGeneration := 0, None;
      metadata, published := map[], [];
    }

    method PublishUniverse(entered: set<string>, exited: set<string>)
      modifies `epoch, `published
      ensures Did(Publish(old(State()), entered, exited))
    {
      epoch := epoch + 1;
      published := published + [UniverseEvent(epoch, activeByCondition.Keys, entered, exited)];
    }

    method RetireExpiredMarkets(now: int) returns (expired: set<string>)
      modifies `activeByCondition
      ensures (State(), expired) == RetireExpired(old(State()), now)
    {
      expired := {};
      var rest := activeByCondition.Keys;
      while rest != {}
        invariant rest <= activeByCondition.Keys
        invariant expired == ExpiredIds(activeByCondition, now) - rest
        decreases rest
      {
        var c :| c in rest;
        if activeByCondition[c].IsExpired(now) {
          expired := expired + {c};
        }
        rest := rest - {c};
      }
      var toPop := expired;
      while toPop != {}
        invariant toPop <= expired
        invariant activeByCondition == old(activeByCondition) - (expired - toPop)
        decreases toPop
      {
        var c :| c in toPop;
        activeByCondition := activeByCondition - {c};
        toPop := toPop - {c};
      }
      assert expired - toPop == expired;
      assert expired == ExpiredIds(old(activeByCondition), now);
    }

    method RetireCondition(c: string, exited: set<string>) returns (exited': set<string>)
      modifies `activeByCondition
      ensures (State(), exited') == Retire(old(State()), c, exited)
    {
      exited' := if c in activeByCondition then exited + {c} else exited;
      activeByCondition := activeByCondition - {c};
    }

    method PublishMarketExits(exited: set<string>)
      modifies `epoch, `published
      ensures Did(PublishExits(old(State()), exited))
    {
      if exited != {} {
        PublishUniverse({}, exited);
      }
    }

    method Start(now: int)
      modifies this
      ensures State() == OnStart(old(State()), now) && published == old(published)
    {
      lifecycleGeneration := lifecycleGeneration + 1;
      var exited := RetireExpiredMarkets(now);
      if activeByCondition.Keys != {} || exited != {} {
        startupRestoredIds := if loadedFromState then activeByCondition.Keys else {};
        startupExitedIds := exited;
        startupReplayGeneration := Some(lifecycleGeneration);
        startupReplayScheduled := true;
      }
      if loadedFromState {
        activeByCondition := activeByCondition - startupRestoredIds;
      }
    }

    method Stop()
      modifies this
      ensures State() == OnStop(old(State())) && published == old(published)
    {
      lifecycleGeneration := lifecycleGeneration + 1;
      if startupReplayScheduled {
        startupReplayScheduled := false;
        startupExitedIds, startupRestoredIds, startupReplayGeneration := {}, {}, None;
      }
    }

    method RetireTerminal(c: string, now: int)
      modifies `activeByCondition, `startupExitedIds, `epoch, `published
      ensures Did(OnTerminal(old(State()), c, now))
    {
      var expired := RetireExpiredMarkets(now);
      var exited := RetireCondition(c, expired);
      if startupReplayScheduled && exited != {} {
        startupExitedIds := startupExitedIds + exited;
      }
      PublishMarketExits(exited);
    }

    method ReceiveMarket(m: Market, now: int)
      modifies `activeByCondition, `startupRestoredIds, `metadata, `epoch, `published
      ensures Did(OnMarket(old(State()), m, now))
    {
      var expired := RetireExpiredMarkets(now);
      if !m.IsActive() || m.IsExpired(now) {
        var exited := RetireCondition(m.conditionId, expired);
        PublishMarketExits(exited);
        return;
      }
      var isNew := m.conditionId !in activeByCondition;
      if isNew || activeByCondition[m.conditionId].Signature() != m.Signature() {
        metadata := metadata[m.conditionId := m];
      }
      startupRestoredIds := startupRestoredIds - {m.conditionId};
      activeByCondition := activeByCondition[m.conditionId := m];
      if isNew || expired != {} {
        PublishUniverse(if isNew then {m.conditionId} else {}, expired);
      }
    }

    method ReceiveInstrument(i: Instrument, now: int)
      modifies this, builder
      ensures Did(OnInstrument(old(State()), i, now))
    {
      var terminal := builder.RecordTerminalCondition(i);
      if terminal.Some? {
        RetireTerminal(terminal.value, now);
        return;
      }
      var market := builder.Add(i);
      if market.Some? {
        ReceiveMarket(market.value, now);
      }
    }

    method StartupReplay(generation: int)
      modifies this
      ensures Did(OnReplay(old(State()), generation))
    {
      if !startupReplayScheduled || startupReplayGeneration != Some(generation) || lifecycleGeneration != generation {
        return;
      }
      var exited := startupExitedIds + startupRestoredIds;
      startupReplayScheduled := false;
      startupExitedIds, startupRestoredIds, startupReplayGeneration := {}, {}, None;
      PublishAllMetadata();
      PublishUniverse(activeByCondition.Keys, exited);
    }

    method PublishAllMetadata()
      modifies `metadata
      ensures metadata == old(metadata) + activeByCondition
    {
      ghost var rest := activeByCondition.Keys;
      while rest != {}
        invariant rest <= activeByCondition.Keys
        invariant metadata == old(metadata) + (activeByCondition - rest)
        decreases rest
        modifies `metadata
      {
        ghost var c :| c in rest;
        metadata := metadata[c := activeByCondition[c]];
        rest := rest - {c};
      }
      assert activeByCondition - rest == activeByCondition;
    }

    method MarketExpiryTimer(now: int)
      modifies this
      ensures Did(OnExpiry(old(State()), now))
    {
      var expired := RetireExpiredMarkets(now);
      PublishMarketExits(expired);
    }

    method Save() returns (saved: Saved)
      ensures saved == OnSave(State())
    {
      saved := Saved(epoch, builder.terminalConditionIds, activeByCondition);
    }

    method LoadState(saved: Saved)
      modifies this, builder
      ensures State() == OnLoad(old(State()), saved) && published == old(published)
    {
      builder.RestoreTerminalConditions(saved.terminal);
      activeByCondition := saved.active - {""};
      if saved.epoch >= 0 {
        epoch := saved.epoch;
      }
      loadedFromState := true;
    }
  }
}

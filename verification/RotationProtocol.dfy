/** What holds over every run of the rotation actor, for every interleaving of its callbacks. */
module RotationProtocol {
  import opened Options
  import opened InstrumentMarkets
  import opened MarketRotation

  // ---------- what one callback does ----------

  ghost predicate InSegment(e: Callback) {
    e.Arrive? || e.Expiry? || e.Replay?
  }

  ghost predicate Segment(es: seq<Callback>) {
    forall k | 0 <= k < |es| :: InSegment(es[k])
  }

  /** One callback took `gone` out of the active set and then brought `came` in, and said so in one event. */
  ghost predicate Moved(s: RotationState, s': RotationState, out: seq<UniverseEvent>, gone: set<string>,
                        came: set<string>) {
    && gone <= s.active.Keys
    && s'.active.Keys == s.active.Keys - gone + came
    && came !! s.active.Keys - gone
    && s'.scheduled == s.scheduled && s'.generation == s.generation && s'.replayGeneration == s.replayGeneration
    && s'.startupRestored <= s.startupRestored <= s'.startupRestored + s'.active.Keys
    && came !! s'.startupRestored
    && s.startupExited <= s'.startupExited <= s.startupExited + (if s.scheduled then gone else {})
    && (if gone == {} && came == {} then out == [] && s'.epoch == s.epoch
        else out == [UniverseEvent(s.epoch + 1, s'.active.Keys, came, gone)] && s'.epoch == s.epoch + 1)
  }

  lemma TerminalMoves(s: RotationState, c: string, now: int) returns (gone: set<string>)
    ensures Moved(s, OnTerminal(s, c, now).0, OnTerminal(s, c, now).1, gone, {})
    ensures c !in OnTerminal(s, c, now).0.active
    ensures gone == ExpiredIds(s.active, now) + ({c} * s.active.Keys)
    ensures OnTerminal(s, c, now).0.active == s.active - gone
    ensures OnTerminal(s, c, now).0.builder == s.builder && OnTerminal(s, c, now).0.metadata == s.metadata
  {
    gone := ExpiredIds(s.active, now) + ({c} * s.active.Keys);
    var (s1, expired) := RetireExpired(s, now);
    var (s2, exited) := Retire(s1, c, expired);
    assert exited == gone;
    assert s2.active == s.active - gone;
  }

  lemma RefusalMoves(s: RotationState, m: Market, now: int) returns (gone: set<string>)
    requires !m.IsActive() || m.IsExpired(now)
    ensures Moved(s, OnMarket(s, m, now).0, OnMarket(s, m, now).1, gone, {})
    ensures gone == ExpiredIds(s.active, now) + ({m.conditionId} * s.active.Keys)
    ensures OnMarket(s, m, now).0.active == s.active - gone
    ensures OnMarket(s, m, now).0.builder == s.builder && OnMarket(s, m, now).0.metadata == s.metadata
    ensures OnMarket(s, m, now).0.startupExited == s.startupExited
  {
    gone := ExpiredIds(s.active, now) + ({m.conditionId} * s.active.Keys);
    var (s1, expired) := RetireExpired(s, now);
    var (s2, exited) := Retire(s1, m.conditionId, expired);
    assert exited == gone;
    assert s2.active == s.active - gone;
  }

  lemma ActivateMoves(s: RotationState, m: Market, gone: set<string>) returns (came: set<string>)
    requires gone <= s.active.Keys
    ensures
      var s1 := s.(active := s.active - gone);
      && Moved(s, Activate(s1, m, gone).0, Activate(s1, m, gone).1, gone, came)
      && came == (if m.conditionId in s1.active then {} else {m.conditionId})
  {
    var c, kept := m.conditionId, s.active - gone;
    came := if c in kept then {} else {c};
    assert kept.Keys == s.active.Keys - gone;
    assert kept[c := m].Keys == s.active.Keys - gone + came;
  }

  lemma ActivationMoves(s: RotationState, m: Market, now: int) returns (gone: set<string>, came: set<string>)
    requires m.IsActive() && !m.IsExpired(now)
    ensures Moved(s, OnMarket(s, m, now).0, OnMarket(s, m, now).1, gone, came)
    ensures gone == ExpiredIds(s.active, now) && came <= {m.conditionId}
    ensures came == {} <==> m.conditionId in s.active && !s.active[m.conditionId].IsExpired(now)
    ensures OnMarket(s, m, now).0.active == (s.active - gone)[m.conditionId := m]
    ensures OnMarket(s, m, now).0.builder == s.builder
    ensures OnMarket(s, m, now).0.startupExited == s.startupExited
    ensures OnMarket(s, m, now).0.metadata ==
            if came == {} && s.active[m.conditionId].Signature() == m.Signature() then s.metadata
              else s.metadata[m.conditionId := m]
  {
    gone := ExpiredIds(s.active, now);
    came := ActivateMoves(s, m, gone);
    assert OnMarket(s, m, now) == Activate(s.(active := s.active - gone), m, gone);
  }

  lemma ExpiryMoves(s: RotationState, now: int)
    ensures Moved(s, OnExpiry(s, now).0, OnExpiry(s, now).1, ExpiredIds(s.active, now), {})
    ensures OnExpiry(s, now).0.startupExited == s.startupExited
  {
    assert (s.active - ExpiredIds(s.active, now)).Keys == s.active.Keys - ExpiredIds(s.active, now);
  }

  /** Every arrival is a move; nothing terminal comes in, and a newly terminal condition goes out. */
  lemma ArrivalMoves(s: RotationState, i: Instrument, now: int) returns (gone: set<string>, came: set<string>)
    ensures Moved(s, OnInstrument(s, i, now).0, OnInstrument(s, i, now).1, gone, came)
    ensures s.builder.terminal <= OnInstrument(s, i, now).0.builder.terminal
    ensures Inv(s) ==> OnInstrument(s, i, now).0.active.Keys !! OnInstrument(s, i, now).0.builder.terminal
  {
    var (b1, terminal) := RecordTerminal(s.builder, i);
    var (b2, market) := AddInstrument(b1, i);
    if terminal.Some? {
      gone := TerminalMoves(s.(builder := b1), terminal.value, now);
      came := {};
      assert b1.terminal == s.builder.terminal + {terminal.value};
    } else {
      assert b2.terminal == s.builder.terminal;
      if market.None? {
        gone, came := {}, {};
      } else if !market.value.IsActive() || market.value.IsExpired(now) {
        gone := RefusalMoves(s.(builder := b2), market.value, now);
        came := {};
      } else {
        gone, came := ActivationMoves(s.(builder := b2), market.value, now);
      }
    }
  }

  // ---------- invariants of every run ----------

  ghost predicate Inv(s: RotationState) {
    && s.epoch >= 0
    && s.active.Keys !! s.builder.terminal
    && s.startupRestored !! s.active.Keys
    && (!s.scheduled ==> s.startupExited == {} && s.startupRestored == {})
    && (s.scheduled ==> s.replayGeneration == Some(s.generation))
  }

  /** The saved state can be loaded without reopening a condition either side knows to be terminal. */
  ghost predicate LoadFits(s: RotationState, saved: Saved) {
    saved.active.Keys - {""} !! s.builder.terminal + (saved.terminal - {""})
  }

  /** The framework starts and loads an actor only while no startup replay is pending. */
  ghost predicate Legal(s: RotationState, e: Callback) {
    match e
    case Start(_) => !s.scheduled
    case Load(saved) => !s.scheduled && LoadFits(s, saved)
    case _ => true
  }

  ghost predicate LegalRun(s: RotationState, es: seq<Callback>)
    decreases es
  {
    es == [] || (Legal(s, es[0]) && LegalRun(Step(s, es[0]).0, es[1..]))
  }

  lemma StepKeepsInv(s: RotationState, e: Callback)
    requires Inv(s) && Legal(s, e)
    ensures Inv(Step(s, e).0)
    ensures s.builder.terminal <= Step(s, e).0.builder.terminal
  {
    match e {
      case Arrive(i, now) =>
        var gone, came := ArrivalMoves(s, i, now);
      case Expiry(now) => ExpiryMoves(s, now);
      case _ =>
    }
  }

  lemma {:induction false} RunKeepsInv(s: RotationState, es: seq<Callback>)
    requires Inv(s) && LegalRun(s, es)
    ensures Inv(Run(s, es).0)
    ensures s.builder.terminal <= Run(s, es).0.builder.terminal
    decreases es
  {
    if es != [] {
      StepKeepsInv(s, es[0]);
      RunKeepsInv(Step(s, es[0]).0, es[1..]);
    }
  }

  /** `LoadFits` is exactly what a load between runs must satisfy. */
  lemma LoadKeepsInvExactly(s: RotationState, saved: Saved)
    requires Inv(s) && !s.scheduled
    ensures Inv(OnLoad(s, saved)) <==> LoadFits(s, saved)
  {
  }

  /** A save of any reachable actor loads into a newly built one: nothing but unnamed conditions is lost, and the
      invariants hold again, whatever startup markets the new actor was given. */
  lemma SaveThenLoad(s: RotationState, startup: map<string, Market>)
    requires Inv(s)
    ensures Inv(Initial(startup))
    ensures Legal(Initial(startup), Load(OnSave(s)))
    ensures
      var s' := OnLoad(Initial(startup), OnSave(s));
      && s'.loaded && s'.epoch == s.epoch && Inv(s')
      && s'.active == s.active - {""} && s'.builder.terminal == s.builder.terminal - {""}
  {
    var s' := OnLoad(Initial(startup), OnSave(s));
    assert s'.builder.terminal == s.builder.terminal - {""};
  }

  // ---------- the shape of each event ----------

  /** Between a start and the next stop every callback publishes at most one event, and it accounts for the whole
      change of the active set. */
  lemma StepShape(s: RotationState, e: Callback)
    requires InSegment(e)
    ensures
      var (s', out) := Step(s, e);
      && |out| <= 1
      && (out == [] ==> s'.active.Keys == s.active.Keys && s'.epoch == s.epoch)
      && (out != [] ==>
            && out[0].epoch == s'.epoch == s.epoch + 1
            && out[0].active == s'.active.Keys
            && out[0].entered <= out[0].active
            && s'.active.Keys == s.active.Keys - out[0].exited + out[0].entered)
  {
    match e {
      case Arrive(i, now) =>
        var gone, came := ArrivalMoves(s, i, now);
      case Expiry(now) => ExpiryMoves(s, now);
      case Replay(_, _) =>
    }
  }

  lemma OutsideSegment(s: RotationState, e: Callback)
    requires !InSegment(e)
    ensures Step(s, e).1 == []
    ensures !e.Load? ==> Step(s, e).0.epoch == s.epoch
  {
  }

  /** Each event's active set is the previous one with the exits removed and the entries added. */
  ghost predicate Chain(active: set<string>, evs: seq<UniverseEvent>)
    decreases evs
  {
    evs == [] ||
    (&& evs[0].active == active - evs[0].exited + evs[0].entered
     && evs[0].entered <= evs[0].active
     && Chain(evs[0].active, evs[1..]))
  }

  lemma {:induction false} RunChains(s: RotationState, es: seq<Callback>)
    requires Segment(es)
    ensures Chain(s.active.Keys, Run(s, es).1)
    decreases es
  {
    if es != [] {
      StepShape(s, es[0]);
      var (s1, out) := Step(s, es[0]);
      RunChains(s1, es[1..]);
      if out != [] {
        assert (out + Run(s1, es[1..]).1)[1..] == Run(s1, es[1..]).1;
      } else {
        assert out + Run(s1, es[1..]).1 == Run(s1, es[1..]).1;
      }
    }
  }

  /** The active set of the last event. */
  function LatestActive(active: set<string>, evs: seq<UniverseEvent>): set<string>
    decreases evs
  {
    if evs == [] then active else LatestActive(evs[0].active, evs[1..])
  }

  lemma {:induction false} RunEnds(s: RotationState, es: seq<Callback>)
    requires Segment(es)
    ensures LatestActive(s.active.Keys, Run(s, es).1) == Run(s, es).0.active.Keys
    decreases es
  {
    if es != [] {
      StepShape(s, es[0]);
      var (s1, out) := Step(s, es[0]);
      RunEnds(s1, es[1..]);
      if out != [] {
        assert (out + Run(s1, es[1..]).1)[1..] == Run(s1, es[1..]).1;
      } else {
        assert out + Run(s1, es[1..]).1 == Run(s1, es[1..]).1;
      }
    }
  }

  // ---------- epochs ----------

  ghost predicate NoLoad(es: seq<Callback>) {
    forall k | 0 <= k < |es| :: !es[k].Load?
  }

  ghost predicate NumberedFrom(epoch: int, evs: seq<UniverseEvent>) {
    forall k | 0 <= k < |evs| :: evs[k].epoch == epoch + 1 + k
  }

  /** Every published epoch is the previous one plus one. */
  lemma {:induction false} EpochsAreConsecutive(s: RotationState, es: seq<Callback>)
    requires NoLoad(es)
    ensures NumberedFrom(s.epoch, Run(s, es).1)
    ensures Run(s, es).0.epoch == s.epoch + |Run(s, es).1|
    decreases es
  {
    if es != [] {
      if InSegment(es[0]) { StepShape(s, es[0]); } else { OutsideSegment(s, es[0]); }
      EpochsAreConsecutive(Step(s, es[0]).0, es[1..]);
    }
  }

  /** The numbering survives a handover: run, save, load into a new actor, run again. */
  lemma HandoverKeepsNumbering(s: RotationState, before: seq<Callback>, startup: map<string, Market>,
                               after: seq<Callback>)
    requires Inv(s) && LegalRun(s, before) && NoLoad(before) && NoLoad(after)
    ensures
      var (s1, out1) := Run(s, before);
      var s2 := OnLoad(Initial(startup), OnSave(s1));
      NumberedFrom(s.epoch, out1 + Run(s2, after).1)
  {
    var (s1, out1) := Run(s, before);
    RunKeepsInv(s, before);
    EpochsAreConsecutive(s, before);
    SaveThenLoad(s1, startup);
    EpochsAreConsecutive(OnLoad(Initial(startup), OnSave(s1)), after);
  }

  // ---------- terminal conditions ----------

  ghost predicate StaysOut(c: string, evs: seq<UniverseEvent>) {
    forall k | 0 <= k < |evs| :: c !in evs[k].active && c !in evs[k].entered
  }

  /** Once a condition is terminal no later event, in any run, shows it as active or entered. */
  lemma {:induction false} TerminalStaysOut(s: RotationState, es: seq<Callback>, c: string)
    requires Inv(s) && LegalRun(s, es) && c in s.builder.terminal
    ensures StaysOut(c, Run(s, es).1)
    ensures c !in Run(s, es).0.active
    decreases es
  {
    if es != [] {
      StepKeepsInv(s, es[0]);
      if InSegment(es[0]) { StepShape(s, es[0]); } else { OutsideSegment(s, es[0]); }
      TerminalStaysOut(Step(s, es[0]).0, es[1..], c);
    }
  }

  /** The same across a handover through saved state. */
  lemma TerminalStaysOutAfterHandover(s: RotationState, startup: map<string, Market>, es: seq<Callback>, c: string)
    requires Inv(s) && c in s.builder.terminal && c != ""
    requires LegalRun(OnLoad(Initial(startup), OnSave(s)), es)
    ensures StaysOut(c, Run(OnLoad(Initial(startup), OnSave(s)), es).1)
  {
    SaveThenLoad(s, startup);
    TerminalStaysOut(OnLoad(Initial(startup), OnSave(s)), es, c);
  }

  // ---------- the startup replay ----------

  /** After a start that scheduled a replay, the replay of that generation fires, exactly once; all others are stale. */
  lemma {:induction false} ReplayFiresOnce(s: RotationState, es: seq<Callback>)
    requires Inv(s) && Segment(es)
    ensures Run(s, es).0.generation == s.generation
    ensures Run(s, es).0.scheduled
            <==> s.scheduled && forall k | 0 <= k < |es| :: es[k].Replay? ==> es[k].generation != s.generation
    decreases es
  {
    if es != [] {
      assert InSegment(es[0]) && Legal(s, es[0]);
      StepKeepsInv(s, es[0]);
      StepKeepsGeneration(s, es[0]);
      ReplayFiresOnce(Step(s, es[0]).0, es[1..]);
    }
  }

  lemma StepKeepsGeneration(s: RotationState, e: Callback)
    requires Inv(s) && InSegment(e)
    ensures Step(s, e).0.generation == s.generation
    ensures Step(s, e).0.scheduled <==> s.scheduled && (e.Replay? ==> e.generation != s.generation)
  {
    match e {
      case Arrive(i, now) =>
        var gone, came := ArrivalMoves(s, i, now);
      case Expiry(now) => ExpiryMoves(s, now);
      case Replay(generation, _) =>
    }
  }

  // ---------- delta replay ----------

  function Consume(held: set<string>, evs: seq<UniverseEvent>): set<string>
    decreases evs
  {
    if evs == [] then held else Consume(held - evs[0].exited + evs[0].entered, evs[1..])
  }

  function Touched(evs: seq<UniverseEvent>): set<string> {
    if evs == [] then {} else evs[0].exited + evs[0].entered + Touched(evs[1..])
  }

  /** The relation between a consumer that started from `held0` and the actor, `known` being every condition the actor
      was active in at the start or named in an event since. */
  ghost predicate Tracks(held0: set<string>, held: set<string>, known: set<string>, s: RotationState) {
    && s.active.Keys <= known && s.startupExited <= known && s.startupRestored <= known
    && (s.scheduled ==> held - s.active.Keys - s.startupExited - s.startupRestored == held0 - known)
    && (!s.scheduled ==> held == s.active.Keys + (held0 - known))
  }

  lemma StartTracks(s: RotationState, now: int, held0: set<string>)
    requires Inv(s) && !s.scheduled
    ensures Tracks(held0, held0, s.active.Keys, OnStart(s, now))
  {
    var s1 := OnStart(s, now);
    assert s.active.Keys == s1.active.Keys + s1.startupExited + s1.startupRestored;
  }

  lemma StepTracks(held0: set<string>, held: set<string>, known: set<string>, s: RotationState, e: Callback)
    requires Inv(s) && InSegment(e) && Tracks(held0, held, known, s)
    ensures
      var (s', out) := Step(s, e);
      Tracks(held0, Consume(held, out), known + Touched(out), s')
  {
    var (s', out) := Step(s, e);
    match e {
      case Arrive(i, now) =>
        var gone, came := ArrivalMoves(s, i, now);
        MoveTracks(held0, held, known, s, s', out, gone, came);
      case Expiry(now) =>
        ExpiryMoves(s, now);
        MoveTracks(held0, held, known, s, s', out, ExpiredIds(s.active, now), {});
      case Replay(g, _) =>
        ConsumeOne(held, out);
        if ReplayIsCurrent(s, g) {
          assert known + Touched(out) == known;
        }
    }
  }

  lemma ConsumeOne(held: set<string>, out: seq<UniverseEvent>)
    requires |out| <= 1
    ensures Consume(held, out) == if out == [] then held else held - out[0].exited + out[0].entered
    ensures Touched(out) == if out == [] then {} else out[0].exited + out[0].entered
  {
    if out != [] {
      assert out[1..] == [];
    }
  }

  lemma MoveTracks(held0: set<string>, held: set<string>, known: set<string>, s: RotationState,
                   s': RotationState, out: seq<UniverseEvent>, gone: set<string>, came: set<string>)
    requires Tracks(held0, held, known, s) && Moved(s, s', out, gone, came)
    ensures Tracks(held0, Consume(held, out), known + Touched(out), s')
  {
    ConsumeOne(held, out);
    var held' := Consume(held, out);
    assert held' == held - gone + came && known + Touched(out) == known + came;
    if s.scheduled {
      forall x
        ensures x in held' - s'.active.Keys - s'.startupExited - s'.startupRestored <==> x in held0 - (known + came)
      {
        assert x in held0 - known <==> x in held - s.active.Keys - s.startupExited - s.startupRestored;
      }
    }
  }

  lemma {:induction false} ConsumeAppend(held: set<string>, a: seq<UniverseEvent>, b: seq<UniverseEvent>)
    ensures Consume(held, a + b) == Consume(Consume(held, a), b)
    ensures Touched(a + b) == Touched(a) + Touched(b)
    decreases a
  {
    if a == [] {
      assert a + b == b;
    } else {
      assert (a + b)[1..] == a[1..] + b;
      ConsumeAppend(held - a[0].exited + a[0].entered, a[1..], b);
    }
  }

  lemma {:induction false} RunTracks(held0: set<string>, held: set<string>, known: set<string>, s: RotationState,
                                     es: seq<Callback>)
    requires Inv(s) && Segment(es) && Tracks(held0, held, known, s)
    ensures
      var (s', out) := Run(s, es);
      Tracks(held0, Consume(held, out), known + Touched(out), s')
    decreases es
  {
    if es == [] {
      assert known + Touched([]) == known;
    } else {
      var (s1, out) := Step(s, es[0]);
      var (s2, rest) := Run(s1, es[1..]);
      assert Legal(s, es[0]);
      StepKeepsInv(s, es[0]);
      StepTracks(held0, held, known, s, es[0]);
      RunTracks(held0, Consume(held, out), known + Touched(out), s1, es[1..]);
      ConsumeAppend(held, out, rest);
      assert known + Touched(out) + Touched(rest) == known + Touched(out + rest);
    }
  }

  /** Delta replay. After a start, once no replay is pending, a consumer of the events holds the active set plus exactly
      those conditions it started with that the actor has neither known at the start nor named since. */
  lemma DeltaReplay(s: RotationState, now: int, es: seq<Callback>, held0: set<string>)
    requires Inv(s) && !s.scheduled && Segment(es)
    requires !Run(OnStart(s, now), es).0.scheduled
    ensures
      var (s', out) := Run(OnStart(s, now), es);
      && Consume(held0, out) == s'.active.Keys + (held0 - s.active.Keys - Touched(out))
      && (Consume(held0, out) == s'.active.Keys <==> held0 <= s.active.Keys + Touched(out))
      && (held0 <= s.active.Keys ==> Consume(held0, out) == s'.active.Keys)
  {
    var s1 := OnStart(s, now);
    StepKeepsInv(s, Start(now));
    StartTracks(s, now, held0);
    RunTracks(held0, held0, s.active.Keys, s1, es);
    var (s', out) := Run(s1, es);
    assert held0 - (s.active.Keys + Touched(out)) == held0 - s.active.Keys - Touched(out);
    assert (held0 - s.active.Keys - Touched(out)) !! s'.active.Keys;
    if Consume(held0, out) == s'.active.Keys {
      assert held0 - s.active.Keys - Touched(out) == {};
    }
  }

  lemma RunOne(s: RotationState, e: Callback)
    ensures Run(s, [e]) == Step(s, e)
  {
    var (s1, out) := Step(s, e);
    assert [e][1..] == [] && out + [] == out;
  }

  /** On the conditions that some event names, a consumer of a chain ends with its last active set; on the others
      nothing moves. */
  lemma {:induction false} ChainConsumes(held: set<string>, active: set<string>, evs: seq<UniverseEvent>)
    requires Chain(active, evs)
    ensures
      var named, last := Touched(evs), LatestActive(active, evs);
      Consume(held, evs) == (held - named) + (last * named) && last - named == active - named
    decreases evs
  {
    if evs != [] {
      var e, rest := evs[0], evs[1..];
      ChainConsumes(held - e.exited + e.entered, e.active, rest);
      OneMoreEvent(held, active, e, Touched(rest), LatestActive(e.active, rest));
    }
  }

  lemma OneMoreEvent(held: set<string>, active: set<string>, e: UniverseEvent, later: set<string>, last: set<string>)
    requires e.active == active - e.exited + e.entered && last - later == e.active - later
    ensures
      var named := e.exited + e.entered + later;
      && (held - e.exited + e.entered - later) + (last * later) == (held - named) + (last * named)
      && last - named == active - named
  {
    var named := e.exited + e.entered + later;
    forall c
      ensures c in (held - e.exited + e.entered - later) + (last * later) <==> c in (held - named) + (last * named)
      ensures c in last - named <==> c in active - named
    {
      assert c in last - later <==> c in e.active - later;
    }
  }

  lemma NothingLeft(a: set<string>, b: set<string>)
    ensures a <= b <==> a - b == {}
  {
    forall c | c in a && a - b == {} ensures c in b {
      assert c !in a - b;
    }
  }

  /** At any time after a start, replayed or not, a consumer agrees with the actor exactly when the two agreed, just
      after the start, on the conditions no event has named since. */
  lemma DeltaAtAnyTime(s: RotationState, now: int, es: seq<Callback>, held0: set<string>)
    requires Segment(es)
    ensures
      var (s', out) := Run(OnStart(s, now), es);
      Consume(held0, out) == s'.active.Keys <==> held0 - Touched(out) == OnStart(s, now).active.Keys - Touched(out)
  {
    var s1 := OnStart(s, now);
    var (s', out) := Run(s1, es);
    RunChains(s1, es);
    RunEnds(s1, es);
    ChainConsumes(held0, s1.active.Keys, out);
    var named, last := Touched(out), s'.active.Keys;
    assert last == (last - named) + (last * named);
    assert (held0 - named) + (last * named) == last ==> held0 - named == last - named by {
      if (held0 - named) + (last * named) == last {
        forall c ensures c in held0 - named <==> c in last - named {
          assert c in (held0 - named) + (last * named) <==> c in last;
        }
      }
    }
  }

  function Pending(s: RotationState): set<string> {
    s.startupExited + s.startupRestored
  }

  lemma StepPending(s: RotationState, e: Callback)
    requires Inv(s) && InSegment(e)
    ensures
      var (s', out) := Step(s, e);
      Pending(s') - Touched(out) == Pending(s) - Touched(out)
  {
    var (s', out) := Step(s, e);
    StepShape(s, e);
    ConsumeOne({}, out);
    match e {
      case Arrive(i, now) =>
        var gone, came := ArrivalMoves(s, i, now);
      case Expiry(now) => ExpiryMoves(s, now);
      case Replay(_, _) =>
    }
  }

  /** What waits for the replay is what waited at the start, but for conditions that some event has named. */
  lemma {:induction false} PendingFollows(s: RotationState, es: seq<Callback>)
    requires Inv(s) && Segment(es)
    ensures
      var (s', out) := Run(s, es);
      Pending(s') - Touched(out) == Pending(s) - Touched(out) && (!s'.scheduled ==> Pending(s') == {})
    decreases es
  {
    if es != [] {
      var (s1, out) := Step(s, es[0]);
      var (s2, rest) := Run(s1, es[1..]);
      assert InSegment(es[0]) && Legal(s, es[0]);
      StepKeepsInv(s, es[0]);
      StepPending(s, es[0]);
      PendingFollows(s1, es[1..]);
      ConsumeAppend({}, out, rest);
      forall c ensures c in Pending(s2) - Touched(out + rest) <==> c in Pending(s) - Touched(out + rest) {
        assert c in Pending(s2) - Touched(rest) <==> c in Pending(s1) - Touched(rest);
        assert c in Pending(s1) - Touched(out) <==> c in Pending(s) - Touched(out);
      }
    }
  }

  /** A start leaves aside exactly what then waits for the replay. */
  lemma StartSetsAside(s: RotationState, now: int)
    requires Inv(s) && !s.scheduled
    ensures
      var s1 := OnStart(s, now);
      s1.active.Keys == s.active.Keys - Pending(s1) && Pending(s1) <= s.active.Keys
  {
  }

  /** A consumer that held the active set before a start holds it again when the actor stops, exactly when the replay
      has fired or every exit still waiting for it was named by an event. */
  lemma StopKeepsDeltaExactly(s: RotationState, now: int, es: seq<Callback>)
    requires Inv(s) && !s.scheduled && Segment(es)
    ensures
      var (s1, out) := Run(OnStart(s, now), es);
      && OnStop(s1).active == s1.active
      && (Consume(s.active.Keys, out) == OnStop(s1).active.Keys
          <==> (!s1.scheduled || s1.startupExited + s1.startupRestored <= Touched(out)))
  {
    var s0 := OnStart(s, now);
    var (s1, out) := Run(s0, es);
    StepKeepsInv(s, Start(now));
    StartSetsAside(s, now);
    DeltaAtAnyTime(s, now, es, s.active.Keys);
    PendingFollows(s0, es);
    var named := Touched(out);
    assert s.active.Keys - named == s0.active.Keys - named <==> Pending(s0) <= named by {
      if s.active.Keys - named == s0.active.Keys - named {
        forall c | c in Pending(s0) ensures c in named {
          assert c in s.active.Keys - named <==> c in s0.active.Keys - named;
        }
      }
    }
    NothingLeft(Pending(s0), named);
    NothingLeft(Pending(s1), named);
  }

  const SAMPLE := Market("c", "BTC", "5m", None, Active, ["u", "d"], "")

  /** A stop before the replay drops the pending exits: a restored condition that was never confirmed is not exited by
      that start, nor by the next one, although the actor no longer has it. */
  lemma StopBeforeReplayLosesExits()
    ensures
      var s := OnLoad(Initial(map[]), Saved(0, {}, map["c" := SAMPLE]));
      var (s', out) := Run(s, [Start(1), Stop, Start(2), Replay(3, 3), Expiry(4)]);
      && Inv(s) && "c" in s.active && out == [] && "c" !in s'.active && Consume({"c"}, out) != s'.active.Keys
  {
    var s := OnLoad(Initial(map[]), Saved(0, {}, map["c" := SAMPLE]));
    assert s.active == map["c" := SAMPLE];
    var s1 := Step(s, Start(1)).0;
    assert ExpiredIds(s.active, 1) == {};
    assert s1.scheduled && s1.startupRestored == {"c"} && s1.active == map[];
    var s2 := Step(s1, Stop).0;
    var s3 := Step(s2, Start(2)).0;
    assert s3 == s2.(generation := 3);
    assert Step(s3, Replay(3, 3)) == (s3, []);
    assert ExpiredIds(s3.active, 4) == {} && s3.active - {} == s3.active;
    assert Step(s3, Expiry(4)) == (s3, []);
    assert Run(s3, [Replay(3, 3), Expiry(4)]) == (s3, []) by {
      assert [Replay(3, 3), Expiry(4)][1..] == [Expiry(4)];
      RunOne(s3, Expiry(4));
    }
    assert [Start(1), Stop, Start(2), Replay(3, 3), Expiry(4)][1..] == [Stop, Start(2), Replay(3, 3), Expiry(4)];
    assert [Stop, Start(2), Replay(3, 3), Expiry(4)][1..] == [Start(2), Replay(3, 3), Expiry(4)];
    assert [Start(2), Replay(3, 3), Expiry(4)][1..] == [Replay(3, 3), Expiry(4)];
  }

  // ---------- exits and entries do not overlap ----------

  ghost predicate FixedEnds(endOf: string -> Option<int>, active: map<string, Market>) {
    forall c | c in active :: active[c].endTs == endOf(c)
  }

  /** Condition end times never change, and the clock has not gone back behind `t`. */
  ghost predicate Steady(endOf: string -> Option<int>, t: int, e: Callback) {
    match e
    case Start(now) => t <= now
    case Stop => true
    case Load(saved) => FixedEnds(endOf, saved.active)
    case Arrive(i, now) => t <= now && i.payload.endTs == endOf(i.conditionId)
    case Expiry(now) => t <= now
    case Replay(_, now) => t <= now
  }

  function Clock(t: int, e: Callback): int {
    match e
    case Start(now) => now
    case Stop => t
    case Load(_) => t
    case Arrive(_, now) => now
    case Expiry(now) => now
    case Replay(_, now) => now
  }

  ghost predicate SteadyRun(endOf: string -> Option<int>, t: int, es: seq<Callback>)
    decreases es
  {
    es == [] || (Steady(endOf, t, es[0]) && SteadyRun(endOf, Clock(t, es[0]), es[1..]))
  }

  /** A pending startup exit can never come back: it is terminal, or its end has passed. */
  ghost predicate ExitsAreFinal(endOf: string -> Option<int>, t: int, s: RotationState) {
    && FixedEnds(endOf, s.active)
    && s.startupExited !! s.active.Keys
    && forall c | c in s.startupExited :: c in s.builder.terminal || (endOf(c).Some? && endOf(c).value <= t)
  }

  ghost predicate NoOverlap(evs: seq<UniverseEvent>) {
    forall k | 0 <= k < |evs| :: evs[k].exited !! evs[k].active
  }

  lemma StepIsFinal(endOf: string -> Option<int>, t: int, s: RotationState, e: Callback)
    requires Inv(s) && Legal(s, e) && Steady(endOf, t, e) && ExitsAreFinal(endOf, t, s)
    ensures ExitsAreFinal(endOf, Clock(t, e), Step(s, e).0)
    ensures NoOverlap(Step(s, e).1)
  {
    match e {
      case Arrive(i, now) => ArrivalIsFinal(endOf, t, s, i, now);
      case Expiry(now) => ExpiryMoves(s, now);
      case _ =>
    }
  }

  lemma ArrivalIsFinal(endOf: string -> Option<int>, t: int, s: RotationState, i: Instrument, now: int)
    requires Inv(s) && ExitsAreFinal(endOf, t, s) && t <= now && i.payload.endTs == endOf(i.conditionId)
    ensures ExitsAreFinal(endOf, now, OnInstrument(s, i, now).0)
    ensures NoOverlap(OnInstrument(s, i, now).1)
  {
    var (b1, terminal) := RecordTerminal(s.builder, i);
    var (b2, market) := AddInstrument(b1, i);
    if terminal.Some? {
      var gone := TerminalMoves(s.(builder := b1), terminal.value, now);
    } else if market.Some? {
      if !market.value.IsActive() || market.value.IsExpired(now) {
        var gone := RefusalMoves(s.(builder := b2), market.value, now);
      } else {
        var gone, came := ActivationMoves(s.(builder := b2), market.value, now);
      }
    }
  }

  /** With fixed end times and a clock that never goes back, no event exits a condition it reports as active. */
  lemma {:induction false} ExitsNeverActive(endOf: string -> Option<int>, t: int, s: RotationState, es: seq<Callback>)
    requires Inv(s) && LegalRun(s, es) && SteadyRun(endOf, t, es) && ExitsAreFinal(endOf, t, s)
    ensures NoOverlap(Run(s, es).1)
    decreases es
  {
    if es != [] {
      StepKeepsInv(s, es[0]);
      StepIsFinal(endOf, t, s, es[0]);
      ExitsNeverActive(endOf, Clock(t, es[0]), Step(s, es[0]).0, es[1..]);
    }
  }

  /** The arriving instrument completes an open market for a condition whose stored copy has just expired. */
  ghost predicate Reopens(s: RotationState, i: Instrument, now: int) {
    var (b1, terminal) := RecordTerminal(s.builder, i);
    var (b2, market) := AddInstrument(b1, i);
    && terminal.None? && market.Some?
    && market.value.IsActive() && !market.value.IsExpired(now)
    && i.conditionId in s.active && s.active[i.conditionId].IsExpired(now)
  }

  /** Without fixed end times: an instrument's event overlaps exactly when the instrument moves an expired condition's
      end time back into the future, and a replay's event exactly when a pending exit is active again. */
  lemma OverlapExactly(s: RotationState, i: Instrument, now: int, generation: int)
    requires Inv(s)
    ensures NoOverlap(OnInstrument(s, i, now).1) <==> !Reopens(s, i, now)
    ensures NoOverlap(OnReplay(s, generation).1)
            <==> !(ReplayIsCurrent(s, generation) && s.startupExited * s.active.Keys != {})
    ensures NoOverlap(OnExpiry(s, now).1)
  {
    ArrivalOverlapExactly(s, i, now);
    var replayed := OnReplay(s, generation).1;
    if ReplayIsCurrent(s, generation) {
      assert replayed[0].exited * replayed[0].active == s.startupExited * s.active.Keys;
      assert NoOverlap(replayed) <==> replayed[0].exited !! replayed[0].active;
    }
    ExpiryMoves(s, now);
  }

  lemma ArrivalOverlapExactly(s: RotationState, i: Instrument, now: int)
    ensures NoOverlap(OnInstrument(s, i, now).1) <==> !Reopens(s, i, now)
  {
    var (b1, terminal) := RecordTerminal(s.builder, i);
    var (b2, market) := AddInstrument(b1, i);
    var out := OnInstrument(s, i, now).1;
    if terminal.Some? {
      var gone := TerminalMoves(s.(builder := b1), terminal.value, now);
    } else if market.Some? {
      if !market.value.IsActive() || market.value.IsExpired(now) {
        var gone := RefusalMoves(s.(builder := b2), market.value, now);
      } else {
        var gone, came := ActivationMoves(s.(builder := b2), market.value, now);
        if out != [] {
          assert out[0].exited * out[0].active == gone * {i.conditionId};
          assert NoOverlap(out) <==> out[0].exited !! out[0].active;
        }
      }
    }
  }

  /** Such a run exists: a condition expires at 10 and is redelivered with a later end. */
  lemma MovedEndOverlaps()
    ensures
      var m := SAMPLE.(endTs := Some(10));
      var payload := Payload(Some(("BTC", "5m")), Active, Some(20), "");
      var up, down := Instrument("c", "u", true, payload), Instrument("c", "d", true, payload);
      var (s', out) := Run(Initial(map["c" := m]), [Arrive(up, 5), Arrive(down, 10)]);
      |out| == 1 && out[0].exited == out[0].active == {"c"}
  {
    var m := SAMPLE.(endTs := Some(10));
    var payload := Payload(Some(("BTC", "5m")), Active, Some(20), "");
    var up, down := Instrument("c", "u", true, payload), Instrument("c", "d", true, payload);
    var s := Initial(map["c" := m]);
    assert s.active == map["c" := m];
    var s1 := Step(s, Arrive(up, 5)).0;
    assert AddInstrument(s.builder, up).0.tokens["c"] == ["u"];
    assert AddInstrument(s.builder, up) == (BuilderState(map["c" := ["u"]], {}), None);
    assert Step(s, Arrive(up, 5)) == (s.(builder := BuilderState(map["c" := ["u"]], {})), []);
    var (s2, out) := Step(s1, Arrive(down, 10));
    assert ExpiredIds(s1.active, 10) == {"c"};
    assert |out| == 1 && out[0].exited == {"c"} && out[0].active == {"c"};
    assert [Arrive(up, 5), Arrive(down, 10)][1..] == [Arrive(down, 10)];
    RunOne(s1, Arrive(down, 10));
  }

  // ---------- metadata ----------

  /** A reader that keeps the latest metadata per condition sees every active market as the actor has it. */
  ghost predicate MetadataCurrent(s: RotationState) {
    forall c | c in s.active :: c in s.metadata && s.metadata[c].Signature() == s.active[c].Signature()
  }

  /** From the replay on, that is so after every later callback but a load. */
  lemma MetadataCurrentFromReplay(s: RotationState, generation: int, es: seq<Callback>)
    requires ReplayIsCurrent(s, generation) && NoLoad(es)
    ensures MetadataCurrent(Run(OnReplay(s, generation).0, es).0)
  {
    assert MetadataCurrent(OnReplay(s, generation).0);
    MetadataStaysCurrent(OnReplay(s, generation).0, es);
  }

  lemma {:induction false} MetadataStaysCurrent(s: RotationState, es: seq<Callback>)
    requires NoLoad(es) && MetadataCurrent(s)
    ensures MetadataCurrent(Run(s, es).0)
    decreases es
  {
    if es != [] {
      assert !es[0].Load?;
      StepKeepsMetadata(s, es[0]);
      MetadataStaysCurrent(Step(s, es[0]).0, es[1..]);
    }
  }

  lemma StepKeepsMetadata(s: RotationState, e: Callback)
    requires !e.Load? && MetadataCurrent(s)
    ensures MetadataCurrent(Step(s, e).0)
  {
    if e.Arrive? {
      ArrivalKeepsMetadata(s, e.instrument, e.now);
    }
  }

  lemma ArrivalKeepsMetadata(s: RotationState, i: Instrument, now: int)
    requires MetadataCurrent(s)
    ensures MetadataCurrent(OnInstrument(s, i, now).0)
  {
    var (b1, terminal) := RecordTerminal(s.builder, i);
    var (b2, market) := AddInstrument(b1, i);
    if terminal.Some? {
      var gone := TerminalMoves(s.(builder := b1), terminal.value, now);
    } else if market.Some? {
      if !market.value.IsActive() || market.value.IsExpired(now) {
        var gone := RefusalMoves(s.(builder := b2), market.value, now);
      } else {
        var gone, came := ActivationMoves(s.(builder := b2), market.value, now);
      }
    }
  }
}

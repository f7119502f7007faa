/** Producer and consumer together: the recorder fed with the universe events of the rotation actor, within one start-
    to-stop segment and over any run, while instruments and instrument closes arrive in between in any order. */
module UniverseDelivery {
  import opened Options
  import IM = InstrumentMarkets
  import MR = MarketRotation
  import RP = RotationProtocol
  import RD = RecordedMarketData

  datatype Delivery =
    | Instrument(instrument: IM.Instrument)
    | InstrumentClose(id: Option<RD.InstrumentId>)
    | Universe(payload: RD.UniversePayload)

  function Step(r: RD.RecorderState, d: Delivery): RD.RecorderState {
    match d
    case Instrument(i) => RD.OnInstrument(r, i)
    case InstrumentClose(id) => RD.OnInstrumentClose(r, id)
    case Universe(p) => RD.OnUniverse(r, p)
  }

  function Run(r: RD.RecorderState, ds: seq<Delivery>): RD.RecorderState
    decreases ds
  {
    if ds == [] then r else Run(Step(r, ds[0]), ds[1..])
  }

  /** The message carries the event, its sets listed in any order. */
  ghost predicate Renders(ev: MR.UniverseEvent, p: RD.UniversePayload) {
    && RD.Elements(p.active) == ev.active
    && RD.Elements(p.entered) == ev.entered
    && RD.Elements(p.exited) == ev.exited
  }

  /** The universe messages among the deliveries are a prefix of the stream. */
  ghost predicate Delivers(ds: seq<Delivery>, evs: seq<MR.UniverseEvent>)
    decreases ds
  {
    ds == [] ||
    (if ds[0].Universe? then evs != [] && Renders(evs[0], ds[0].payload) && Delivers(ds[1..], evs[1..])
     else Delivers(ds[1..], evs))
  }

  function Delivered(ds: seq<Delivery>): nat {
    if ds == [] then 0 else (if ds[0].Universe? then 1 else 0) + Delivered(ds[1..])
  }

  function Exited(evs: seq<MR.UniverseEvent>): set<string> {
    if evs == [] then {} else evs[0].exited + Exited(evs[1..])
  }

  lemma StepKeepsInv(r: RD.RecorderState, d: Delivery)
    requires RD.Inv(r)
    ensures RD.Inv(Step(r, d))
  {
    match d {
      case Instrument(i) => RD.InstrumentKeepsInv(r, i);
      case InstrumentClose(id) => RD.CloseKeepsInv(r, id);
      case Universe(p) => RD.UniverseKeepsInv(r, p);
    }
  }

  lemma UniverseInactive(r: RD.RecorderState, ev: MR.UniverseEvent, p: RD.UniversePayload)
    requires Renders(ev, p) && ev.entered <= ev.active
    ensures RD.OnUniverse(r, p).inactive == r.inactive + ev.exited - ev.active
  {
  }

  lemma {:induction false} DeliveredFits(ds: seq<Delivery>, evs: seq<MR.UniverseEvent>)
    requires Delivers(ds, evs)
    ensures Delivered(ds) <= |evs|
    decreases ds
  {
    if ds != [] {
      DeliveredFits(ds[1..], if ds[0].Universe? then evs[1..] else evs);
    }
  }

  // ---------- any stream of events ----------

  /** Conditions that left the active set between two events without any event since exiting them or listing them. */
  function Unannounced(active: set<string>, aside: set<string>, evs: seq<MR.UniverseEvent>): set<string>
    decreases evs
  {
    if evs == [] then aside
    else Unannounced(evs[0].active, aside + (active - evs[0].active) - evs[0].exited - evs[0].active, evs[1..])
  }

  ghost predicate EntriesListed(evs: seq<MR.UniverseEvent>) {
    forall k | 0 <= k < |evs| :: evs[k].entered <= evs[k].active
  }

  lemma OneEventRetires(inactive: set<string>, seen: set<string>, active: set<string>, aside: set<string>,
                        ev: MR.UniverseEvent)
    requires inactive == seen - active - aside
    ensures inactive + ev.exited - ev.active ==
            (seen + ev.exited) - ev.active - (aside + (active - ev.active) - ev.exited - ev.active)
  {
    forall c
      ensures c in inactive + ev.exited - ev.active <==>
              c in (seen + ev.exited) - ev.active - (aside + (active - ev.active) - ev.exited - ev.active)
    {
      assert c in inactive <==> c in seen - active - aside;
    }
  }

  /** For every delivered prefix of any stream, the recorder's retired set is exactly what was exited, less the latest
      active set and less what left without announcement. */
  lemma {:induction false} InactiveFollows(r: RD.RecorderState, ds: seq<Delivery>, evs: seq<MR.UniverseEvent>,
                                           seen: set<string>, active: set<string>, aside: set<string>)
    requires RD.Inv(r) && Delivers(ds, evs) && EntriesListed(evs) && r.inactive == seen - active - aside
    ensures Delivered(ds) <= |evs| && RD.Inv(Run(r, ds))
    ensures
      var some := evs[..Delivered(ds)];
      Run(r, ds).inactive == seen + Exited(some) - RP.LatestActive(active, some) - Unannounced(active, aside, some)
    decreases ds
  {
    if ds == [] {
      assert evs[..0] == [];
      assert seen + Exited([]) == seen;
    } else {
      StepKeepsInv(r, ds[0]);
      var r1 := Step(r, ds[0]);
      var n := Delivered(ds[1..]);
      if ds[0].Universe? {
        var ev, later := evs[0], evs[1..];
        UniverseInactive(r, ev, ds[0].payload);
        OneEventRetires(r.inactive, seen, active, aside, ev);
        InactiveFollows(r1, ds[1..], later, seen + ev.exited, ev.active,
          aside + (active - ev.active) - ev.exited - ev.active);
        assert evs[..n + 1][0] == ev && evs[..n + 1][1..] == later[..n];
        assert seen + ev.exited + Exited(later[..n]) == seen + Exited(evs[..n + 1]);
      } else {
        InactiveFollows(r1, ds[1..], evs, seen, active, aside);
      }
    }
  }

  lemma {:induction false} RunListsEntries(s: MR.RotationState, es: seq<MR.Callback>)
    ensures EntriesListed(MR.Run(s, es).1)
    decreases es
  {
    if es != [] {
      var (s1, out) := MR.Step(s, es[0]);
      if RP.InSegment(es[0]) { RP.StepShape(s, es[0]); } else { RP.OutsideSegment(s, es[0]); }
      RunListsEntries(s1, es[1..]);
    }
  }

  /** Every run of the actor, with any number of stops, starts and loads: the law "what was exited and is not in the
      latest active set is retired, so holds no quotes" holds for a delivered prefix exactly when nothing that was
      exited before has since left without announcement. */
  lemma RetiredExactly(s: MR.RotationState, es: seq<MR.Callback>, r: RD.RecorderState, ds: seq<Delivery>)
    requires RD.Inv(r) && r.inactive == {} && Delivers(ds, MR.Run(s, es).1)
    ensures Delivered(ds) <= |MR.Run(s, es).1|
    ensures
      var some := MR.Run(s, es).1[..Delivered(ds)];
      var latest, unannounced := RP.LatestActive(s.active.Keys, some), Unannounced(s.active.Keys, {}, some);
      && Run(r, ds).inactive == Exited(some) - latest - unannounced
      && Run(r, ds).quotes.Keys !! Run(r, ds).inactive
      && (Run(r, ds).inactive == Exited(some) - latest <==> Exited(some) !! unannounced)
  {
    RunListsEntries(s, es);
    var out := MR.Run(s, es).1;
    InactiveFollows(r, ds, out, {}, s.active.Keys, {});
    var some := out[..Delivered(ds)];
    var latest, unannounced := RP.LatestActive(s.active.Keys, some), Unannounced(s.active.Keys, {}, some);
    UnannouncedIsGone(s.active.Keys, {}, some);
    assert {} + Exited(some) == Exited(some);
    NothingTakenAway(Exited(some), latest, unannounced);
  }

  lemma NothingTakenAway(exits: set<string>, latest: set<string>, unannounced: set<string>)
    requires unannounced !! latest
    ensures exits - latest - unannounced == exits - latest <==> exits !! unannounced
  {
    if exits - latest - unannounced == exits - latest {
      forall c | c in exits ensures c !in unannounced {
        assert c in exits - latest - unannounced <==> c in exits - latest;
      }
    }
  }

  lemma {:induction false} UnannouncedIsGone(active: set<string>, aside: set<string>, evs: seq<MR.UniverseEvent>)
    requires aside !! active
    ensures Unannounced(active, aside, evs) !! RP.LatestActive(active, evs)
    decreases evs
  {
    if evs != [] {
      UnannouncedIsGone(evs[0].active, aside + (active - evs[0].active) - evs[0].exited - evs[0].active, evs[1..]);
    }
  }

  // ---------- one segment, and the next ----------

  /** A chain announces every departure; what was aside stays so until an event names it. */
  lemma {:induction false} ChainAnnounces(active: set<string>, aside: set<string>, evs: seq<MR.UniverseEvent>)
    requires RP.Chain(active, evs) && aside !! active
    ensures Unannounced(active, aside, evs) == aside - RP.Touched(evs)
    decreases evs
  {
    if evs != [] {
      var e, later := evs[0], evs[1..];
      var aside' := aside + (active - e.active) - e.exited - e.active;
      assert aside' == aside - e.exited - e.entered;
      ChainAnnounces(e.active, aside', later);
      assert aside' - RP.Touched(later) == aside - RP.Touched(evs);
    }
  }

  lemma {:induction false} ChainPrefix(active: set<string>, evs: seq<MR.UniverseEvent>, n: nat)
    requires RP.Chain(active, evs) && n <= |evs|
    ensures RP.Chain(active, evs[..n])
    decreases evs
  {
    if n > 0 {
      ChainPrefix(evs[0].active, evs[1..], n - 1);
      assert evs[..n][1..] == evs[1..][..n - 1];
    }
  }

  /** For every delivered prefix of a segment's stream, the recorder's retired set is exactly what was exited and is
      not in the latest active set, and none of it holds a quote subscription, whatever instruments were redelivered.
      */
  lemma QuotesFollowUniverse(s: MR.RotationState, now: int, es: seq<MR.Callback>, r: RD.RecorderState,
                             ds: seq<Delivery>)
    requires RP.Segment(es)
    requires RD.Inv(r) && r.inactive == {}
    requires Delivers(ds, MR.Run(MR.OnStart(s, now), es).1)
    ensures
      var s1 := MR.OnStart(s, now);
      var out := MR.Run(s1, es).1;
      var n := Delivered(ds);
      && n <= |out|
      && Run(r, ds).inactive == Exited(out[..n]) - RP.LatestActive(s1.active.Keys, out[..n])
      && forall c | c in Exited(out[..n]) && c !in RP.LatestActive(s1.active.Keys, out[..n]) :: c !in Run(r, ds).quotes
  {
    var s1 := MR.OnStart(s, now);
    var out := MR.Run(s1, es).1;
    RetiredExactly(s1, es, r, ds);
    RP.RunChains(s1, es);
    ChainPrefix(s1.active.Keys, out, Delivered(ds));
    ChainAnnounces(s1.active.Keys, {}, out[..Delivered(ds)]);
  }

  lemma {:induction false} UnannouncedAppend(active: set<string>, aside: set<string>, a: seq<MR.UniverseEvent>,
                                             b: seq<MR.UniverseEvent>)
    ensures Unannounced(active, aside, a + b) ==
            Unannounced(RP.LatestActive(active, a), Unannounced(active, aside, a), b)
    decreases a
  {
    if a == [] {
      assert a + b == b;
    } else {
      assert (a + b)[1..] == a[1..] + b;
      UnannouncedAppend(a[0].active, aside + (active - a[0].active) - a[0].exited - a[0].active, a[1..], b);
    }
  }

  /** A chain that starts below the known active set leaves the difference unannounced, until an event names it. */
  lemma ShortfallStays(known: set<string>, active: set<string>, evs: seq<MR.UniverseEvent>)
    requires RP.Chain(active, evs) && active <= known && evs != []
    ensures Unannounced(known, {}, evs) == (known - active) - RP.Touched(evs)
  {
    var e, later := evs[0], evs[1..];
    var aside := {} + (known - e.active) - e.exited - e.active;
    assert aside == (known - active) - e.exited - e.entered;
    ChainAnnounces(e.active, aside, later);
    assert aside - RP.Touched(later) == (known - active) - RP.Touched(evs);
  }

  /** The actor alone stops and starts again under a running recorder. Once an event of the second segment is
      delivered, what the restart set aside is unannounced until an event names it; when the replay has fired and all
      is delivered, nothing is. */
  lemma RestartExactly(s: MR.RotationState, now: int, es: seq<MR.Callback>, now': int, es': seq<MR.Callback>, n: nat)
    requires RP.Inv(s) && !s.scheduled && RP.Segment(es) && RP.Segment(es')
    requires
      var s1 := MR.Run(MR.OnStart(s, now), es).0;
      n <= |MR.Run(MR.OnStart(MR.OnStop(s1), now'), es').1|
    ensures
      var s0 := MR.OnStart(s, now);
      var (s1, out) := MR.Run(s0, es);
      var s2 := MR.OnStart(MR.OnStop(s1), now');
      var (s3, out') := MR.Run(s2, es');
      && Unannounced(s0.active.Keys, {}, out + out'[..n])
         == (if n == 0 then {} else (s1.active.Keys - s2.active.Keys) - RP.Touched(out'[..n]))
      && (!s3.scheduled ==> Unannounced(s0.active.Keys, {}, out + out') == {})
  {
    var s0 := MR.OnStart(s, now);
    var (s1, out) := MR.Run(s0, es);
    var s2 := MR.OnStart(MR.OnStop(s1), now');
    var (s3, out') := MR.Run(s2, es');
    SegmentThenMore(s0, es, out'[..n]);
    SegmentThenMore(s0, es, out');
    StopKeepsInv(s, now, es);
    RestartSetsAside(MR.OnStop(s1), now', es', n);
    if !s3.scheduled {
      RestartSettles(MR.OnStop(s1), now', es');
    }
  }

  lemma RestartSetsAside(s: MR.RotationState, now: int, es: seq<MR.Callback>, n: nat)
    requires RP.Inv(s) && !s.scheduled && RP.Segment(es) && n <= |MR.Run(MR.OnStart(s, now), es).1|
    ensures
      var s1 := MR.OnStart(s, now);
      var some := MR.Run(s1, es).1[..n];
      Unannounced(s.active.Keys, {}, some) == if n == 0 then {} else (s.active.Keys - s1.active.Keys) - RP.Touched(some)
  {
    var s1 := MR.OnStart(s, now);
    var out := MR.Run(s1, es).1;
    RP.RunChains(s1, es);
    ChainPrefix(s1.active.Keys, out, n);
    RP.StartSetsAside(s, now);
    if n > 0 {
      ShortfallStays(s.active.Keys, s1.active.Keys, out[..n]);
    }
  }

  lemma RestartSettles(s: MR.RotationState, now: int, es: seq<MR.Callback>)
    requires RP.Inv(s) && !s.scheduled && RP.Segment(es) && !MR.Run(MR.OnStart(s, now), es).0.scheduled
    ensures Unannounced(s.active.Keys, {}, MR.Run(MR.OnStart(s, now), es).1) == {}
  {
    var s1 := MR.OnStart(s, now);
    var out := MR.Run(s1, es).1;
    assert out[..|out|] == out;
    RestartSetsAside(s, now, es, |out|);
    RP.StartSetsAside(s, now);
    RP.StepKeepsInv(s, MR.Start(now));
    RP.PendingFollows(s1, es);
    assert s.active.Keys - s1.active.Keys == RP.Pending(s1);
  }

  lemma SegmentThenMore(s: MR.RotationState, es: seq<MR.Callback>, more: seq<MR.UniverseEvent>)
    requires RP.Segment(es)
    ensures
      var (s1, out) := MR.Run(s, es);
      Unannounced(s.active.Keys, {}, out + more) == Unannounced(s1.active.Keys, {}, more)
  {
    var (s1, out) := MR.Run(s, es);
    RP.RunChains(s, es);
    RP.RunEnds(s, es);
    ChainAnnounces(s.active.Keys, {}, out);
    assert {} - RP.Touched(out) == {};
    UnannouncedAppend(s.active.Keys, {}, out, more);
  }

  lemma StopKeepsInv(s: MR.RotationState, now: int, es: seq<MR.Callback>)
    requires RP.Inv(s) && !s.scheduled && RP.Segment(es)
    ensures
      var s1 := MR.OnStop(MR.Run(MR.OnStart(s, now), es).0);
      RP.Inv(s1) && !s1.scheduled
  {
    var s0 := MR.OnStart(s, now);
    RP.StepKeepsInv(s, MR.Start(now));
    SegmentIsLegal(s0, es);
    RP.RunKeepsInv(s0, es);
    RP.StepKeepsInv(MR.Run(s0, es).0, MR.Stop);
  }

  lemma {:induction false} SegmentIsLegal(s: MR.RotationState, es: seq<MR.Callback>)
    requires RP.Segment(es)
    ensures RP.LegalRun(s, es)
    decreases es
  {
    if es != [] {
      assert RP.InSegment(es[0]);
      SegmentIsLegal(MR.Step(s, es[0]).0, es[1..]);
    }
  }

  // ---------- a run in which the law fails between a restart and its replay ----------

  const OPEN := IM.Payload(Some(("BTC", "5m")), IM.Active, None, "")
  const UNSURE := OPEN.(status := IM.Unknown)

  function OpenMarket(c: string, tokens: seq<string>): IM.Market {
    IM.Market(c, "BTC", "5m", None, IM.Active, tokens, "")
  }

  function Token(c: string, token: string, payload: IM.Payload): IM.Instrument {
    IM.Instrument(c, token, true, payload)
  }

  /** No market ends, none is terminal. */
  ghost predicate Endless(s: MR.RotationState) {
    s.builder.terminal == {} && forall c | c in s.active :: s.active[c].endTs.None?
  }

  lemma NoneExpired(s: MR.RotationState, now: int)
    requires Endless(s)
    ensures MR.RetireExpired(s, now) == (s, {})
  {
    assert MR.ExpiredIds(s.active, now) == {};
    assert s.active - {} == s.active;
  }

  /** The first token of a condition only waits for the second. */
  lemma FirstToken(s: MR.RotationState, c: string, token: string, now: int)
    requires Endless(s) && c !in s.builder.tokens
    ensures MR.OnInstrument(s, Token(c, token, OPEN), now) ==
            (s.(builder := IM.BuilderState(s.builder.tokens[c := [token]], {})), [])
  {
    FirstTokenWaits(s.builder, c, token);
  }

  lemma FirstTokenWaits(b: IM.BuilderState, c: string, token: string)
    requires b.terminal == {} && c !in b.tokens
    ensures IM.AddInstrument(b, Token(c, token, OPEN)) == (IM.BuilderState(b.tokens[c := [token]], {}), None)
  {
    var none: seq<string> := [];
    assert none + [token] == [token];
    assert IM.WithToken(IM.TokensOf(b, c), token) == [token];
  }

  /** A complete open market that is not active enters. */
  lemma Enters(s: MR.RotationState, c: string, token: string, now: int, tokens: seq<string>)
    requires Endless(s) && c !in s.active && |tokens| == 2 && IM.WithToken(IM.TokensOf(s.builder, c), token) == tokens
    ensures
      var (s', out) := MR.OnInstrument(s, Token(c, token, OPEN), now);
      && out == [MR.UniverseEvent(s.epoch + 1, s.active.Keys + {c}, {c}, {})]
      && s'.active == s.active[c := OpenMarket(c, tokens)]
      && s'.builder == IM.BuilderState(s.builder.tokens[c := tokens], {})
      && (s'.epoch, s'.loaded, s'.scheduled) == (s.epoch + 1, s.loaded, s.scheduled)
      && (s'.startupExited, s'.startupRestored) == (s.startupExited, s.startupRestored - {c})
  {
    var b := IM.AddInstrument(s.builder, Token(c, token, OPEN)).0;
    NoneExpired(s.(builder := b), now);
    assert s.active[c := OpenMarket(c, tokens)].Keys == s.active.Keys + {c};
  }

  /** A complete market whose status is in doubt leaves. */
  lemma Leaves(s: MR.RotationState, c: string, token: string, now: int, tokens: seq<string>)
    requires Endless(s) && c in s.active && |tokens| == 2 && IM.WithToken(IM.TokensOf(s.builder, c), token) == tokens
    ensures
      var (s', out) := MR.OnInstrument(s, Token(c, token, UNSURE), now);
      && out == [MR.UniverseEvent(s.epoch + 1, s.active.Keys - {c}, {}, {c})]
      && s'.active == s.active - {c} && s'.builder == IM.BuilderState(s.builder.tokens[c := tokens], {})
      && (s'.epoch, s'.loaded, s'.scheduled) == (s.epoch + 1, s.loaded, s.scheduled)
      && (s'.startupExited, s'.startupRestored) == (s.startupExited, s.startupRestored)
  {
    var b := IM.AddInstrument(s.builder, Token(c, token, UNSURE)).0;
    NoneExpired(s.(builder := b), now);
    assert (s.active - {c}).Keys == s.active.Keys - {c};
    var nothing: set<string> := {};
    assert nothing + {c} == {c};
  }

  ghost predicate Joins(s: MR.RotationState, a: seq<MR.Callback>, b: seq<MR.Callback>) {
    var (s1, out) := MR.Run(s, a);
    MR.Run(s, a + b) == (MR.Run(s1, b).0, out + MR.Run(s1, b).1)
  }

  lemma {:induction false} RunJoins(s: MR.RotationState, a: seq<MR.Callback>, b: seq<MR.Callback>)
    ensures Joins(s, a, b)
    decreases a
  {
    if a == [] {
      assert a + b == b;
      var none: seq<MR.UniverseEvent> := [];
      assert none + MR.Run(s, b).1 == MR.Run(s, b).1;
    } else {
      RunJoins(MR.Step(s, a[0]).0, a[1..], b);
      OneMoreJoins(s, a[0], a[1..], b);
      assert a == [a[0]] + a[1..];
    }
  }

  lemma OneMoreJoins(s: MR.RotationState, first: MR.Callback, rest: seq<MR.Callback>, b: seq<MR.Callback>)
    requires Joins(MR.Step(s, first).0, rest, b)
    ensures Joins(s, [first] + rest, b)
  {
    RunCons(s, first, rest);
    RunCons(s, first, rest + b);
    var (s1, out) := MR.Step(s, first);
    var (s2, more) := MR.Run(s1, rest);
    Regrouped(out, more, MR.Run(s2, b).1);
    Front(first, rest, b);
  }

  lemma Front(first: MR.Callback, rest: seq<MR.Callback>, b: seq<MR.Callback>)
    ensures ([first] + rest) + b == [first] + (rest + b)
  {
  }

  lemma Regrouped(x: seq<MR.UniverseEvent>, y: seq<MR.UniverseEvent>, z: seq<MR.UniverseEvent>)
    ensures x + (y + z) == (x + y) + z
  {
  }

  lemma RunCons(s: MR.RotationState, e: MR.Callback, es: seq<MR.Callback>)
    ensures
      var (s1, out) := MR.Step(s, e);
      MR.Run(s, [e] + es) == (MR.Run(s1, es).0, out + MR.Run(s1, es).1)
  {
    assert ([e] + es)[1..] == es;
  }

  lemma RunTwo(s: MR.RotationState, e: MR.Callback, e': MR.Callback)
    ensures
      var (s1, out1) := MR.Step(s, e);
      var (s2, out2) := MR.Step(s1, e');
      MR.Run(s, [e, e']) == (s2, out1 + out2)
  {
    assert [e, e'][1..] == [e'];
    RP.RunOne(MR.Step(s, e).0, e');
  }

  /** An actor restored from an empty save and started. */
  const RESTORED: seq<MR.Callback> := [MR.Load(MR.Saved(0, {}, map[])), MR.Start(0)]
  /** Its condition's two tokens arrive. */
  const BOTH_TOKENS: seq<MR.Callback> := [MR.Arrive(Token("c", "u", OPEN), 1), MR.Arrive(Token("c", "d", OPEN), 1)]
  /** It is in doubt, and open again. */
  const DOUBTED: seq<MR.Callback> := [MR.Arrive(Token("c", "u", UNSURE), 2), MR.Arrive(Token("c", "u", OPEN), 3)]
  const RESTARTED: seq<MR.Callback> := [MR.Stop, MR.Start(5)]
  /** Another condition's two tokens arrive before the replay. */
  const OTHER_TOKENS: seq<MR.Callback> := [MR.Arrive(Token("e", "v", OPEN), 5), MR.Arrive(Token("e", "w", OPEN), 5)]

  function AfterRestore(): MR.RotationState { MR.Run(MR.Initial(map[]), RESTORED).0 }
  function AfterTokens(): MR.RotationState { MR.Run(AfterRestore(), BOTH_TOKENS).0 }
  function AfterDoubt(): MR.RotationState { MR.Run(AfterTokens(), DOUBTED).0 }
  function AfterRestart(): MR.RotationState { MR.Run(AfterDoubt(), RESTARTED).0 }

  /** An open, unscheduled actor with the condition's tokens and exactly the condition active. */
  ghost predicate HasC(s: MR.RotationState, epoch: int) {
    && s.builder == IM.BuilderState(map["c" := ["u", "d"]], {}) && s.active == map["c" := OpenMarket("c", ["u", "d"])]
    && s.epoch == epoch && s.loaded && !s.scheduled
  }

  lemma Restored()
    ensures AfterRestore() == MR.Initial(map[]).(loaded := true, generation := 1)
    ensures MR.Run(MR.Initial(map[]), RESTORED).1 == []
  {
    var s := MR.Initial(map[]);
    RunTwo(s, RESTORED[0], RESTORED[1]);
    var s1 := MR.Step(s, RESTORED[0]).0;
    assert s1 == s.(loaded := true);
    NoneExpired(s1, 0);
    assert s1.active == map[] && s1.active.Keys == {};
  }

  lemma TokensArrive()
    ensures HasC(AfterTokens(), 1) && MR.Run(AfterRestore(), BOTH_TOKENS).1 == [CAME]
  {
    Restored();
    var s := AfterRestore();
    RunTwo(s, BOTH_TOKENS[0], BOTH_TOKENS[1]);
    FirstToken(s, "c", "u", 1);
    var s1 := MR.Step(s, BOTH_TOKENS[0]).0;
    Enters(s1, "c", "d", 1, ["u", "d"]);
    assert s1.active.Keys + {"c"} == {"c"};
    assert map["c" := ["u"]]["c" := ["u", "d"]] == map["c" := ["u", "d"]];
  }

  lemma Doubted()
    ensures HasC(AfterDoubt(), 3) && MR.Run(AfterTokens(), DOUBTED).1 == [GONE, BACK]
  {
    TokensArrive();
    var s := AfterTokens();
    RunTwo(s, DOUBTED[0], DOUBTED[1]);
    Leaves(s, "c", "u", 2, ["u", "d"]);
    var s1 := MR.Step(s, DOUBTED[0]).0;
    assert s1.active == map[] && s1.active.Keys == {};
    assert map["c" := ["u", "d"]]["c" := ["u", "d"]] == map["c" := ["u", "d"]];
    Enters(s1, "c", "u", 3, ["u", "d"]);
    assert s1.active.Keys + {"c"} == {"c"} && s.active.Keys - {"c"} == {};
  }

  lemma Restarted()
    ensures
      var s := AfterRestart();
      && s.builder == IM.BuilderState(map["c" := ["u", "d"]], {}) && s.active == map[] && s.epoch == 3 && s.scheduled
      && MR.Run(AfterDoubt(), RESTARTED).1 == []
  {
    Doubted();
    var s := AfterDoubt();
    RunTwo(s, MR.Stop, MR.Start(5));
    var s1 := MR.OnStop(s);
    NoneExpired(s1, 5);
    assert s1.active - {} == s1.active && s1.active.Keys == {"c"};
    assert s1.active - {"c"} == map[];
  }

  lemma OthersArrive()
    ensures MR.Run(AfterRestart(), OTHER_TOKENS).1 == [OTHER]
  {
    Restarted();
    OthersArriveAt(AfterRestart());
  }

  lemma OthersArriveAt(s: MR.RotationState)
    requires s.builder == IM.BuilderState(map["c" := ["u", "d"]], {}) && s.active == map[] && s.epoch == 3
    ensures MR.Run(s, OTHER_TOKENS).1 == [OTHER]
  {
    var s1 := s.(builder := IM.BuilderState(s.builder.tokens["e" := ["v"]], {}));
    FirstToken(s, "e", "v", 5);
    assert IM.WithToken(["v"], "w") == ["v", "w"];
    Enters(s1, "e", "w", 5, ["v", "w"]);
    assert s1.active.Keys == {} && s1.active.Keys + {"e"} == {"e"};
    RunTwo(s, OTHER_TOKENS[0], OTHER_TOKENS[1]);
  }

  const THE_RUN := RESTORED + BOTH_TOKENS + DOUBTED + RESTARTED + OTHER_TOKENS
  const CAME := MR.UniverseEvent(1, {"c"}, {"c"}, {})
  const GONE := MR.UniverseEvent(2, {}, {}, {"c"})
  const BACK := MR.UniverseEvent(3, {"c"}, {"c"}, {})
  const OTHER := MR.UniverseEvent(4, {"e"}, {"e"}, {})

  lemma TheRun()
    ensures MR.Run(MR.Initial(map[]), THE_RUN).1 == [CAME, GONE, BACK, OTHER]
  {
    Restored();
    TokensArrive();
    Doubted();
    Restarted();
    OthersArrive();
    var s := MR.Initial(map[]);
    RunJoins(s, RESTORED, BOTH_TOKENS);
    RunJoins(s, RESTORED + BOTH_TOKENS, DOUBTED);
    RunJoins(s, RESTORED + BOTH_TOKENS + DOUBTED, RESTARTED);
    RunJoins(s, RESTORED + BOTH_TOKENS + DOUBTED + RESTARTED, OTHER_TOKENS);
  }

  const CAME_MESSAGE := Universe(RD.UniversePayload(["c"], ["c"], []))
  const GONE_MESSAGE := Universe(RD.UniversePayload([], [], ["c"]))
  const OTHER_MESSAGE := Universe(RD.UniversePayload(["e"], ["e"], []))
  const TOKENS: seq<Delivery> := [Instrument(Token("c", "u", OPEN)), Instrument(Token("c", "d", OPEN))]
  const MESSAGES: seq<Delivery> := [CAME_MESSAGE, GONE_MESSAGE, CAME_MESSAGE, OTHER_MESSAGE]
  const NEW_RECORDER := RD.RecorderState(IM.EMPTY_BUILDER, map[], map[], {})

  lemma MessagesDeliver()
    ensures Delivers(MESSAGES, [CAME, GONE, BACK, OTHER])
    ensures Exited([CAME, GONE, BACK, OTHER]) == {"c"} && RP.LatestActive({}, [CAME, GONE, BACK, OTHER]) == {"e"}
  {
    assert Renders(CAME, CAME_MESSAGE.payload) && Renders(GONE, GONE_MESSAGE.payload);
    assert Renders(BACK, CAME_MESSAGE.payload) && Renders(OTHER, OTHER_MESSAGE.payload);
    OneMessage(OTHER_MESSAGE, OTHER, [], [], {});
    OneMessage(CAME_MESSAGE, BACK, [OTHER_MESSAGE], [OTHER], {});
    OneMessage(GONE_MESSAGE, GONE, [CAME_MESSAGE, OTHER_MESSAGE], [BACK, OTHER], {});
    OneMessage(CAME_MESSAGE, CAME, [GONE_MESSAGE, CAME_MESSAGE, OTHER_MESSAGE], [GONE, BACK, OTHER], {});
    assert [OTHER_MESSAGE] + [] == [OTHER_MESSAGE] && [OTHER] + [] == [OTHER];
    assert [CAME_MESSAGE] + [OTHER_MESSAGE] == [CAME_MESSAGE, OTHER_MESSAGE] && [BACK] + [OTHER] == [BACK, OTHER];
    assert [GONE_MESSAGE] + [CAME_MESSAGE, OTHER_MESSAGE] == [GONE_MESSAGE, CAME_MESSAGE, OTHER_MESSAGE];
    assert [GONE] + [BACK, OTHER] == [GONE, BACK, OTHER] && [CAME] + [GONE, BACK, OTHER] == [CAME, GONE, BACK, OTHER];
    assert [CAME_MESSAGE] + [GONE_MESSAGE, CAME_MESSAGE, OTHER_MESSAGE] == MESSAGES;
  }

  lemma OneMessage(d: Delivery, ev: MR.UniverseEvent, ds: seq<Delivery>, evs: seq<MR.UniverseEvent>,
                   active: set<string>)
    requires d.Universe? && Renders(ev, d.payload) && Delivers(ds, evs)
    ensures Delivers([d] + ds, [ev] + evs)
    ensures Exited([ev] + evs) == ev.exited + Exited(evs)
    ensures RP.LatestActive(active, [ev] + evs) == RP.LatestActive(ev.active, evs)
  {
    assert ([d] + ds)[1..] == ds && ([ev] + evs)[1..] == evs;
  }

  lemma RecorderJoins(r: RD.RecorderState, d: Delivery, ds: seq<Delivery>)
    ensures Run(r, [d] + ds) == Run(Step(r, d), ds)
  {
    assert ([d] + ds)[1..] == ds;
  }

  const SUB := RD.Subscription("5m", [RD.InstrumentId("c", "u"), RD.InstrumentId("c", "d")])

  lemma TokensSubscribe()
    ensures
      var r := Step(Step(NEW_RECORDER, TOKENS[0]), TOKENS[1]);
      Keeps(r, false)
  {
    var r1 := Step(NEW_RECORDER, TOKENS[0]);
    FirstTokenWaits(IM.EMPTY_BUILDER, "c", "u");
    var empty: map<string, seq<string>> := map[];
    assert empty["c" := ["u"]] == map["c" := ["u"]];
    assert IM.WithToken(["u"], "d") == ["u", "d"];
    assert r1.builder == IM.BuilderState(map["c" := ["u"]], {}) && r1.quotes == map[] && r1.closes == map[];
    assert IM.AddInstrument(r1.builder, Token("c", "d", OPEN)).1 == Some(OpenMarket("c", ["u", "d"]));
    assert RD.IdsOf(OpenMarket("c", ["u", "d"])) == SUB.ids;
  }

  /** Subscribed to the condition, or retired with its closes kept. */
  ghost predicate Keeps(r: RD.RecorderState, retired: bool) {
    && r.closes == map["c" := SUB]
    && (if retired then r.quotes == map[] && r.inactive == {"c"} else r.quotes == map["c" := SUB] && r.inactive == {})
  }

  lemma CameKeeps(r: RD.RecorderState, retired: bool)
    requires Keeps(r, retired)
    ensures Keeps(Step(r, CAME_MESSAGE), false)
  {
    assert RD.Elements(["c"]) == {"c"} && RD.Elements<string>([]) == {};
    var r' := Step(r, CAME_MESSAGE);
    assert r'.quotes == map["c" := SUB];
  }

  lemma GoneRetires(r: RD.RecorderState)
    requires Keeps(r, false)
    ensures Keeps(Step(r, GONE_MESSAGE), true)
  {
    assert RD.Elements(["c"]) == {"c"} && RD.Elements<string>([]) == {};
    var r' := Step(r, GONE_MESSAGE);
    assert r'.quotes == map[];
  }

  lemma OtherKeeps(r: RD.RecorderState)
    requires Keeps(r, false)
    ensures Keeps(Step(r, OTHER_MESSAGE), false)
  {
    assert RD.Elements(["e"]) == {"e"} && RD.Elements<string>([]) == {};
    var r' := Step(r, OTHER_MESSAGE);
    assert r'.quotes == map["c" := SUB];
  }

  lemma MessagesKeep(r: RD.RecorderState)
    requires Keeps(r, false)
    ensures Run(r, MESSAGES).quotes == map["c" := SUB]
  {
    CameKeeps(r, false);
    var r1 := Step(r, CAME_MESSAGE);
    GoneRetires(r1);
    var r2 := Step(r1, GONE_MESSAGE);
    CameKeeps(r2, true);
    var r3 := Step(r2, CAME_MESSAGE);
    OtherKeeps(r3);
    FourMessages(r);
  }

  lemma FourMessages(r: RD.RecorderState)
    ensures Run(r, MESSAGES) == Step(Step(Step(Step(r, CAME_MESSAGE), GONE_MESSAGE), CAME_MESSAGE), OTHER_MESSAGE)
  {
    var r1 := Step(r, CAME_MESSAGE);
    var r2 := Step(r1, GONE_MESSAGE);
    var r3 := Step(r2, CAME_MESSAGE);
    var end: seq<Delivery> := [];
    RecorderJoins(r3, OTHER_MESSAGE, end);
    RecorderJoins(r2, CAME_MESSAGE, [OTHER_MESSAGE] + end);
    RecorderJoins(r1, GONE_MESSAGE, [CAME_MESSAGE] + ([OTHER_MESSAGE] + end));
    RecorderJoins(r, CAME_MESSAGE, [GONE_MESSAGE] + ([CAME_MESSAGE] + ([OTHER_MESSAGE] + end)));
    assert MESSAGES == [CAME_MESSAGE] + ([GONE_MESSAGE] + ([CAME_MESSAGE] + ([OTHER_MESSAGE] + end)));
  }

  lemma TokensFirst(r: RD.RecorderState, ds: seq<Delivery>, evs: seq<MR.UniverseEvent>)
    requires Delivers(ds, evs)
    ensures Delivers(TOKENS + ds, evs) && Run(r, TOKENS + ds) == Run(Step(Step(r, TOKENS[0]), TOKENS[1]), ds)
  {
    var all := TOKENS + ds;
    assert all[1..][1..] == ds && all[0] == TOKENS[0] && all[1..][0] == TOKENS[1];
    assert Delivers(all[1..], evs);
  }

  /** From a new actor and a new recorder: the condition was exited and is not in the latest active set, yet the
      recorder holds its quotes. The restart set it aside without an event, and the replay that will exit it has not
      fired. */
  lemma RestartHidesExit()
    ensures
      var out, ds := MR.Run(MR.Initial(map[]), THE_RUN).1, TOKENS + MESSAGES;
      Delivers(ds, out) && "c" in Exited(out) && "c" !in RP.LatestActive({}, out) && "c" in Run(NEW_RECORDER, ds).quotes
  {
    TheRun();
    MessagesDeliver();
    TokensFirst(NEW_RECORDER, MESSAGES, [CAME, GONE, BACK, OTHER]);
    TokensSubscribe();
    MessagesKeep(Step(Step(NEW_RECORDER, TOKENS[0]), TOKENS[1]));
  }

  /** The other direction: a condition that no delivered event exits keeps its quote subscription unchanged. */
  lemma {:induction false} QuotesPersist(r: RD.RecorderState, ds: seq<Delivery>, evs: seq<MR.UniverseEvent>, c: string)
    requires RD.Inv(r) && Delivers(ds, evs) && Delivered(ds) <= |evs|
    requires c in r.quotes && c !in Exited(evs[..Delivered(ds)])
    ensures c in Run(r, ds).quotes && Run(r, ds).quotes[c] == r.quotes[c]
    decreases ds
  {
    if ds != [] {
      StepKeepsInv(r, ds[0]);
      var n := Delivered(ds[1..]);
      DeliveredFits(ds, evs);
      if ds[0].Universe? {
        assert evs[..n + 1][0] == evs[0] && evs[..n + 1][1..] == evs[1..][..n];
        QuotesPersist(Step(r, ds[0]), ds[1..], evs[1..], c);
      } else {
        QuotesPersist(Step(r, ds[0]), ds[1..], evs, c);
      }
    }
  }

  /** A complete market delivered while its condition is not retired is subscribed, and stays so for as long as no
      delivered event exits the condition. */
  lemma DeliveredMarketStaysSubscribed(r: RD.RecorderState, i: IM.Instrument, ds: seq<Delivery>,
                                       evs: seq<MR.UniverseEvent>)
    requires RD.Inv(r) && IM.AddInstrument(r.builder, i).1.Some? && i.conditionId !in r.inactive
    requires Delivers(ds, evs) && Delivered(ds) <= |evs| && i.conditionId !in Exited(evs[..Delivered(ds)])
    ensures i.conditionId in Run(r, [Instrument(i)] + ds).quotes
  {
    var r1 := Step(r, Instrument(i));
    StepKeepsInv(r, Instrument(i));
    RecorderJoins(r, Instrument(i), ds);
    QuotesPersist(r1, ds, evs, i.conditionId);
  }

  // ---------- what a reactivation opens again ----------

  lemma {:induction false} RunLast(r: RD.RecorderState, ds: seq<Delivery>)
    requires ds != []
    ensures Run(r, ds) == Step(Run(r, ds[..|ds| - 1]), ds[|ds| - 1])
    decreases ds
  {
    if |ds| > 1 {
      RunLast(Step(r, ds[0]), ds[1..]);
      assert ds[1..][..|ds| - 2] == ds[..|ds| - 1][1..];
    }
  }

  predicate Closes(d: Delivery, id: RD.InstrumentId) {
    d.InstrumentClose? && d.id == Some(id)
  }

  ghost predicate NotClosedSince(ds: seq<Delivery>, n: nat, id: RD.InstrumentId) {
    forall m | n <= m < |ds| :: !Closes(ds[m], id)
  }

  /** The n-th delivery is an instrument that makes the recorder subscribe the closes of `k`. */
  ghost predicate OpenedAt(r: RD.RecorderState, ds: seq<Delivery>, n: nat, k: RD.Key)
    requires n < |ds|
  {
    ds[n].Instrument? && RD.Brings(Run(r, ds[..n]), ds[n].instrument, k)
  }

  ghost predicate OpenedAndNotClosed(r: RD.RecorderState, ds: seq<Delivery>, k: RD.Key) {
    exists n :: 0 <= n < |ds| && OpenedAt(r, ds, n, k) && NotClosedSince(ds, n + 1, k.id)
  }

  lemma StepCloses(r: RD.RecorderState, d: Delivery, k: RD.Key)
    requires RD.Inv(r) && k.feed.Close?
    ensures RD.OnRecord(Step(r, d), k) <==>
      (RD.OnRecord(r, k) && !Closes(d, k.id)) || (d.Instrument? && RD.Brings(r, d.instrument, k))
  {
    match d {
      case Instrument(i) => RD.InstrumentExactly(r, i, k);
      case InstrumentClose(id) => RD.CloseExactly(r, id, k);
      case Universe(p) => RD.UniverseExactly(r, p, k);
    }
  }

  lemma {:induction false} RunKeepsInv(r: RD.RecorderState, ds: seq<Delivery>)
    requires RD.Inv(r)
    ensures RD.Inv(Run(r, ds))
    decreases ds
  {
    if ds != [] {
      StepKeepsInv(r, ds[0]);
      RunKeepsInv(Step(r, ds[0]), ds[1..]);
    }
  }

  lemma OneMoreDelivery(r: RD.RecorderState, init: seq<Delivery>, d: Delivery, k: RD.Key)
    ensures NotClosedSince(init + [d], 0, k.id) <==> NotClosedSince(init, 0, k.id) && !Closes(d, k.id)
    ensures OpenedAndNotClosed(r, init + [d], k) <==>
      (OpenedAndNotClosed(r, init, k) && !Closes(d, k.id)) ||
        (d.Instrument? && RD.Brings(Run(r, init), d.instrument, k))
  {
    var ds := init + [d];
    assert ds[..|init|] == init && ds[|init|] == d;
    forall n | 0 <= n < |init| ensures OpenedAt(r, ds, n, k) == OpenedAt(r, init, n, k) {
      assert ds[..n] == init[..n];
    }
    forall n | 0 <= n <= |init|
      ensures NotClosedSince(ds, n, k.id) <==> NotClosedSince(init, n, k.id) && !Closes(d, k.id) {
    }
    assert OpenedAt(r, ds, |init|, k) <==> d.Instrument? && RD.Brings(Run(r, init), d.instrument, k);
    assert NotClosedSince(ds, |init| + 1, k.id);
    if OpenedAndNotClosed(r, ds, k) {
      var n :| 0 <= n < |ds| && OpenedAt(r, ds, n, k) && NotClosedSince(ds, n + 1, k.id);
      if n < |init| {
        assert NotClosedSince(init, n + 1, k.id);
      }
    }
    if OpenedAndNotClosed(r, init, k) && !Closes(d, k.id) {
      var n :| 0 <= n < |init| && OpenedAt(r, init, n, k) && NotClosedSince(init, n + 1, k.id);
      assert OpenedAt(r, ds, n, k);
      assert NotClosedSince(ds, n + 1, k.id);
    }
  }

  /** After any deliveries the close of an instrument is held exactly if it was held before or an instrument made the
      recorder subscribe it, and it was not delivered since. */
  lemma {:induction false} ClosesFollow(r: RD.RecorderState, ds: seq<Delivery>, k: RD.Key)
    requires RD.Inv(r) && k.feed.Close?
    ensures RD.OnRecord(Run(r, ds), k) <==>
      (RD.OnRecord(r, k) && NotClosedSince(ds, 0, k.id)) || OpenedAndNotClosed(r, ds, k)
  {
    if ds != [] {
      var init, d := ds[..|ds| - 1], ds[|ds| - 1];
      assert ds == init + [d];
      ClosesFollow(r, init, k);
      RunLast(r, ds);
      RunKeepsInv(r, init);
      StepCloses(Run(r, init), d, k);
      OneMoreDelivery(r, init, d, k);
    }
  }

  /** A universe event that brings a retired condition back opens the quotes of exactly those of its instruments whose
      close has not been delivered since they were subscribed. */
  lemma ReopenedExactly(r: RD.RecorderState, ds: seq<Delivery>, p: RD.UniversePayload, id: RD.InstrumentId,
                        client: string)
    requires RD.Inv(r) && id.conditionId in Run(r, ds).inactive && RD.ListedActive(p, id.conditionId)
    ensures
      var k := RD.Key(RD.Close, id, client);
      RD.OnRecord(Step(Run(r, ds), Universe(p)), RD.Key(RD.Quote, id, client)) <==>
        (RD.OnRecord(r, k) && NotClosedSince(ds, 0, id)) || OpenedAndNotClosed(r, ds, k)
  {
    RunKeepsInv(r, ds);
    RD.UniverseExactly(Run(r, ds), p, RD.Key(RD.Quote, id, client));
    ClosesFollow(r, ds, RD.Key(RD.Close, id, client));
  }

  /** An instrument whose close was delivered, and that was not subscribed anew since, gets no quotes back. */
  lemma ClosedIsNotReopened(r: RD.RecorderState, ds: seq<Delivery>, n: nat, p: RD.UniversePayload, id: RD.InstrumentId,
                            client: string)
    requires RD.Inv(r) && id.conditionId in Run(r, ds).inactive
    requires n < |ds| && Closes(ds[n], id)
    requires forall m | n < m < |ds| :: !OpenedAt(r, ds, m, RD.Key(RD.Close, id, client))
    ensures !RD.OnRecord(Step(Run(r, ds), Universe(p)), RD.Key(RD.Quote, id, client))
  {
    RunKeepsInv(r, ds);
    var k := RD.Key(RD.Quote, id, client);
    RD.UniverseExactly(Run(r, ds), p, k);
    if RD.ListedActive(p, id.conditionId) {
      ReopenedExactly(r, ds, p, id, client);
      assert !NotClosedSince(ds, 0, id);
      assert !OpenedAt(r, ds, n, RD.Key(RD.Close, id, client));
    }
  }
}

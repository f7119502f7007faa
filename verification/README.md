# Verified model of the Polymarket signal lab

This project models the parts of the signal runtime whose behaviour is hard to see from any one function, and proves what they
keep, in four groups.

**Market universe.** `InstrumentMarkets` builds binary markets from single-token instruments and latches terminal conditions.
`MarketRotation` is the rotation actor: a class with the source's fields and callbacks, each proved against a function of the
state. `RotationProtocol` proves what whole runs of those callbacks keep, `StartupMarkets` what becomes of the markets an actor
has when it starts. `RecordedMarketData` is the recorder with a ghost ledger of its subscribe and unsubscribe calls. `UniverseDelivery` joins producer and consumer. `MarketCatalog` is the catalog, checked
against linear scans.

**From decision to exit.** `DecisionPolicy` arbitrates a batch. `OrderTags` builds, prints and parses order tags.
`TradingState` reads cached orders and positions into views and answers what the exit policy asks of them. `ExitPolicy` decides
which positions to close. `ExitLoop` runs the software exit loop over a cache of orders: read views, decide, submit, let the venue
change things, decide again. `ExitRounds` says which exits of a round go out and what they stop the next round from doing.
`ExitRuns` says what must hold of the cache and of other orders for its law to hold over every run.
`EntryThresholds` follows a position's exit prices from their computation through the entry's tags to the decision to close.

**Numbers and windows.** `DepthWeightedAsk`, `ZigZag`, `BinaryMomentum`, `TpSl`, `TickGrid` and `SlotSlugs`.

**Bookkeeping.** `RepeatSuppressor`, `TelemetryOutbox` and `HealthCounters`; `TelemetryHealth` joins the last two.

`Options`, `Sides`, `Text` and `Reals` hold what the others share.

Objects that the source updates in place are classes. Their methods are proved against functions on immutable states, or against a
ghost history, and the theorems about all runs are lemmas about those functions. Times are integers and floats are reals. Where a
law does not hold of the code for every input, the code is kept as it is, and another lemma says exactly when the law holds.
Each finding below names the lemma that shows it at an input.

Findings worth a maintainer's attention:

- Stopping the rotation actor before its startup replay clears the pending exits for good (`StopBeforeReplayLosesExits`).
- After a restart of the actor alone, the recorder keeps the quotes of a condition the restart set aside until the replay fires
  (`RestartHidesExit`).
- If an end time moves, one event can exit and list the same condition (`MovedEndOverlaps`).
- One token registered for two conditions is lost when the first is registered anew (`SharedTokenIsLost`).
- The close requested at resolution is invisible to the exit policy, which then adds an exit of its own (`CloseAndExitBothLive`).
- A computed stop of zero is not stamped on the entry, so the policy's general stop price closes the position instead
  (`ZeroStopIsOverruled`).
- The gate can approve one leg of a pair and refuse the other (`PairIsSplit`).
- A fast period above the slow one silently pairs the wrong averages or raises an index error (`LongFastPeriod`).
- The tick precision docstring promises the exact decimal exponent; ticks with more than 28 significant digits are rounded first
  (`TickOfTwentyNineDigits`).
- The slug printer trims and lowers configured assets and timeframes, the matcher does not trim assets and compares timeframes as
  configured: a timeframe configured as `5M` is asked for but never matched (`UpperTimeframeIsNeverMatched`). A slot before the
  epoch prints a slug that does not match and whose recovered window is the mirrored one (`SlotBeforeEpochIsMirrored`).
- The window filter admits a slot that ended exactly when the grace ran out, which is never asked for (`GraceJustOverAllowsSlot`).
- Health counters are replaced without a lock and can lose updates (`DropDisappears`).

## Model

| member | source | states |
|---|---|---|
| RotationProtocol.DeltaReplay | src/polysignal_lab/nautilus_runtime/market_rotation.py:168-384 | Start a consumer from any set of conditions and let it apply (held minus exited) plus entered to each event. Once no startup replay is pending it holds the active set plus exactly those conditions it began with that the actor neither knew at the start nor named since; so it equals the active set if and only if there are none of those, whatever instruments, expiry timers and stale replays came in between |
| RotationProtocol.StopKeepsDeltaExactly | src/polysignal_lab/nautilus_runtime/market_rotation.py:168-332 | A consumer that held the active set before a start holds it again when the actor stops if and only if the replay has fired or every exit still pending was named by an event |
| RotationProtocol.DeltaAtAnyTime | src/polysignal_lab/nautilus_runtime/market_rotation.py:168-384 | At any moment after a start, replayed or not, any consumer agrees with the actor if and only if the two agreed, just after the start, on the conditions no event has named since |
| RotationProtocol.StopBeforeReplayLosesExits | src/polysignal_lab/nautilus_runtime/market_rotation.py:264-290 | A concrete run in which stopping before the scheduled replay clears pending exits: a restored condition is gone from the actor and no event ever exits it |
| RotationProtocol.PendingFollows | src/polysignal_lab/nautilus_runtime/market_rotation.py:308-339 | What waits for the replay is what waited at the start, but for conditions that some event has named; nothing waits once it has fired |
| RotationProtocol.ReplayFiresOnce | src/polysignal_lab/nautilus_runtime/market_rotation.py:308-332 | A scheduled replay fires exactly when a callback of its own generation arrives, and every other replay callback is stale |
| RotationProtocol.RunKeepsInv | src/polysignal_lab/nautilus_runtime/market_rotation.py:168-426 | In every run of starts, stops, loads, arrivals, timers and replays the active and the terminal conditions stay disjoint, restored-but-unconfirmed and active stay disjoint, replay bookkeeping is empty unless a replay is scheduled, and the terminal latch only grows |
| RotationProtocol.LoadKeepsInvExactly | src/polysignal_lab/nautilus_runtime/market_rotation.py:403-426 | Which saved states may be loaded between runs without breaking those invariants: exactly the described ones |
| RotationProtocol.SaveThenLoad | src/polysignal_lab/nautilus_runtime/market_rotation.py:386-426 | What any reachable actor saves, a newly built actor loads: epoch, active markets and terminal latch come back (unnamed conditions aside) and the invariants hold, whatever startup markets the new actor had |
| RotationProtocol.EpochsAreConsecutive | src/polysignal_lab/nautilus_runtime/market_rotation.py:147-166 | Every published epoch is the previous one plus one |
| RotationProtocol.HandoverKeepsNumbering | src/polysignal_lab/nautilus_runtime/market_rotation.py:386-426 | The numbering is consecutive across run, save, load into a new actor, run |
| RotationProtocol.TerminalStaysOut | src/polysignal_lab/nautilus_runtime/market_rotation.py:217-262 | Once a condition is terminal no event of any later run shows it active or entered |
| RotationProtocol.TerminalStaysOutAfterHandover | src/polysignal_lab/nautilus_runtime/market_rotation.py:386-426 | The same after its state was saved and loaded by another actor |
| RotationProtocol.RunChains | src/polysignal_lab/nautilus_runtime/market_rotation.py:147-166 | Each event accounts for the whole change of the active set: new active = old active minus exited plus entered, and entered is part of active |
| RotationProtocol.ExitsNeverActive | src/polysignal_lab/nautilus_runtime/market_rotation.py:217-384 | With fixed end times and a clock that never goes back, no event of any run exits a condition it reports as active |
| RotationProtocol.OverlapExactly | src/polysignal_lab/nautilus_runtime/market_rotation.py:217-384 | Without those assumptions: an arrival overlaps if and only if it moves an expired stored market's end back into the future, a replay if and only if a pending exit is active again, an expiry timer never |
| RotationProtocol.MovedEndOverlaps | src/polysignal_lab/nautilus_runtime/market_rotation.py:217-262 | A concrete run whose one event has the same condition in its exited and its active set |
| RotationProtocol.MetadataStaysCurrent | src/polysignal_lab/nautilus_runtime/market_rotation.py:225-262 | A reader that keeps the latest metadata event per condition and sees every active market as the actor has it goes on doing so after every later callback but a load |
| RotationProtocol.MetadataCurrentFromReplay | src/polysignal_lab/nautilus_runtime/market_rotation.py:308-332 | It does so from the startup replay on |
| StartupMarkets.StartExactly | src/polysignal_lab/nautilus_runtime/market_rotation.py:168-215 | What a start does with each market: one whose end has not come stays active if the actor loaded nothing, and waits for the replay if it did; one whose end has come is exited by the replay; there is a replay if and only if there was a market |
| StartupMarkets.NothingSetAside | src/polysignal_lab/nautilus_runtime/market_rotation.py:292-306 | In every run without a load, from any startup markets, nothing is ever set aside |
| StartupMarkets.ReplayListsStartup | src/polysignal_lab/nautilus_runtime/market_rotation.py:147-166 | A new actor that loaded nothing: its startup replay lists and enters every startup market that was not expired, refused or made terminal before it and does not exit it, and exits every one that had expired at the start, whatever came in between |
| StartupMarkets.ReplayListsActive | src/polysignal_lab/nautilus_runtime/market_rotation.py:147-332 | The same for any start of an actor that loaded nothing, in the middle of any run |
| StartupMarkets.UnconfirmedIsExited | src/polysignal_lab/nautilus_runtime/market_rotation.py:194-215 | A loaded market of which no instrument arrives before the replay is exited by it and not listed |
| StartupMarkets.TerminalExitIsReplayed | src/polysignal_lab/nautilus_runtime/market_rotation.py:334-339 | What a closing instrument takes out of the active set while a replay is pending, its own event exits and the replay exits again |
| StartupMarkets.PendingExactly | src/polysignal_lab/nautilus_runtime/market_rotation.py:217-339 | Before the replay only closing instruments add to its exits, exactly what they take out themselves (expiries and refusals do not); only an entry confirms what was set aside |
| StartupMarkets.ReplayExactly | src/polysignal_lab/nautilus_runtime/market_rotation.py:147-339 | The replay after any start and any callbacks exits exactly what had expired at the start, what closing instruments took out since, and what was set aside and has not entered since; it lists and enters exactly what is active |
| StartupMarkets.GenerationCounts | src/polysignal_lab/nautilus_runtime/market_rotation.py:168-290 | The generation is the number of starts and stops |
| StartupMarkets.EarlierReplayIsStale | src/polysignal_lab/nautilus_runtime/market_rotation.py:308-316 | A replay asked for before any of them does nothing after it |
| StartupMarkets.ActiveExactly | src/polysignal_lab/nautilus_runtime/market_rotation.py:217-384 | The active set after each callback between starts and stops: the timer leaves what has not ended; a closing instrument that but its own condition; one that completes a market that and its own condition if the market is active and has not ended; any other everything |
| MarketRotation.MarketRotationActor.Start | src/polysignal_lab/nautilus_runtime/market_rotation.py:168-215 | Moves the actor to the state `StartupMarkets.StartExactly` describes, in the order of the source, and publishes nothing |
| MarketRotation.MarketRotationActor.Stop | src/polysignal_lab/nautilus_runtime/market_rotation.py:264-290 | The whole new state of a stop |
| MarketRotation.MarketRotationActor.ReceiveInstrument | src/polysignal_lab/nautilus_runtime/market_rotation.py:217-262 | New state and published events of an arriving instrument on all its paths (terminal, incomplete, inactive or expired, new, changed, unchanged) |
| MarketRotation.MarketRotationActor.RetireExpiredMarkets | src/polysignal_lab/nautilus_runtime/market_rotation.py:465-474 | Removes exactly the markets whose end has come and returns them |
| MarketRotation.MarketRotationActor.RetireCondition | src/polysignal_lab/nautilus_runtime/market_rotation.py:341-349 | Removes one condition and adds it to the exits only if it was active |
| MarketRotation.MarketRotationActor.StartupReplay | src/polysignal_lab/nautilus_runtime/market_rotation.py:308-332 | New state and events of a replay callback: nothing unless current, otherwise one event with all pending exits and all active markets |
| MarketRotation.MarketRotationActor.MarketExpiryTimer | src/polysignal_lab/nautilus_runtime/market_rotation.py:370-384 | New state and events of the expiry timer |
| MarketRotation.MarketRotationActor.LoadState | src/polysignal_lab/nautilus_runtime/market_rotation.py:403-426 | The state after loading saved state |
| InstrumentMarkets.PolymarketInstrumentMarketBuilder.Add | src/polysignal_lab/nautilus_runtime/instrument_markets.py:65-96 | Collects tokens per condition and yields a market only for exactly two tokens, never an active one for a latched condition |
| InstrumentMarkets.PolymarketInstrumentMarketBuilder.RecordTerminalCondition | src/polysignal_lab/nautilus_runtime/instrument_markets.py:55-63 | Latches a condition whose instrument arrives closed, resolved or cancelled |
| InstrumentMarkets.PolymarketInstrumentMarketBuilder.RestoreTerminalConditions | src/polysignal_lab/nautilus_runtime/instrument_markets.py:44-50 | Adds every non-empty id to the latch |
| InstrumentMarkets.ArrivalsCollect | src/polysignal_lab/nautilus_runtime/instrument_markets.py:65-96 | After any arrivals the tokens of a condition are those of its usable matching instruments, once each, and it is latched if and only if one of them was closed, resolved or cancelled |
| InstrumentMarkets.CompleteExactly | src/polysignal_lab/nautilus_runtime/instrument_markets.py:65-96 | In terms of all arrivals so far: an instrument yields a market if and only if exactly one other token of its condition has ever arrived and it does not call active what an arrival called terminal; the market is that of the latest payload |
| InstrumentMarkets.RecordExactly | src/polysignal_lab/nautilus_runtime/instrument_markets.py:55-63 | Closed, resolved and cancelled instruments and no others latch their condition |
| InstrumentMarkets.SignatureExactly | src/polysignal_lab/nautilus_runtime/market_rotation.py:564-579 | Two markets have one metadata signature if and only if they differ in their status at most |
| UniverseDelivery.RetiredExactly | src/polysignal_lab/nautilus_runtime/recorded_market_data.py:410-510 | Actor and recorder composed, over every run of the actor with any stops, starts and loads: for every delivered prefix of the event stream, with instruments and closes interleaved at will, the retired set is exactly what was exited, less the latest active set, less what left it without an event since; it holds no quotes; so the law that exited and no longer active means retired holds if and only if nothing exited has left unannounced |
| UniverseDelivery.QuotesFollowUniverse | src/polysignal_lab/nautilus_runtime/recorded_market_data.py:410-510 | Within one start-to-stop segment nothing leaves unannounced: the retired set is exactly the conditions exited so far that are not in the latest active set, and none of them holds a quote subscription |
| UniverseDelivery.RestartExactly | src/polysignal_lab/nautilus_runtime/market_rotation.py:168-332 | When the actor alone stops and starts again, what is unannounced is, from the first event after the restart, exactly what the restart set aside and no event has named since; once the replay has fired it is nothing |
| UniverseDelivery.RestartHidesExit | src/polysignal_lab/nautilus_runtime/market_rotation.py:168-332 | A run of a new actor and a new recorder, from an empty save and single-token instruments, in which a condition was exited, came back, was set aside by a restart, and still holds its quotes although it is not in the latest active set |
| UniverseDelivery.QuotesPersist | src/polysignal_lab/nautilus_runtime/recorded_market_data.py:442-510 | The other direction: a quote subscription that no delivered event exits is still there, unchanged |
| UniverseDelivery.DeliveredMarketStaysSubscribed | src/polysignal_lab/nautilus_runtime/recorded_market_data.py:410-510 | A complete market delivered while its condition is not retired is subscribed, and stays so over every later sequence of deliveries in which no event exits the condition |
| UniverseDelivery.ClosesFollow | src/polysignal_lab/nautilus_runtime/recorded_market_data.py:410-491 | After any deliveries the close of an instrument is held if and only if it was held before or an instrument made the recorder subscribe it, and it was not delivered since |
| UniverseDelivery.ReopenedExactly | src/polysignal_lab/nautilus_runtime/recorded_market_data.py:442-491 | Over every sequence of deliveries: an event that brings a retired condition back opens the quotes of exactly those of its instruments whose close has not been delivered since they were subscribed |
| UniverseDelivery.ClosedIsNotReopened | src/polysignal_lab/nautilus_runtime/recorded_market_data.py:442-491 | So an instrument whose close was delivered gets no quotes back, unless it was subscribed anew |
| RecordedMarketData.RecordedMarketDataActor.ReceiveInstrument | src/polysignal_lab/nautilus_runtime/recorded_market_data.py:410-440 | Keeps the ledger balanced: subscribes minus unsubscribes is 1 for exactly the instruments on record in the quote or close dictionary and 0 for all others |
| RecordedMarketData.RecordedMarketDataActor.ReceiveUniverse | src/polysignal_lab/nautilus_runtime/recorded_market_data.py:442-463 | Retires exited conditions, gives reactivated ones back the instruments not closed yet, unsubscribes exactly the quotes that were on record and are not any more, and keeps the ledger balanced |
| RecordedMarketData.RecordedMarketDataActor.ReceiveInstrumentClose | src/polysignal_lab/nautilus_runtime/recorded_market_data.py:475-491 | Unsubscribes exactly the one close that was held, drops it and its entry with the last one, and keeps the ledger balanced |
| RecordedMarketData.RecordedMarketDataActor.Stop | src/polysignal_lab/nautilus_runtime/recorded_market_data.py:364-394 | A stop of a started recorder leaves no subscription and no retired condition, and every subscribe has been matched by an unsubscribe |
| RecordedMarketData.SubscribesAfresh | src/polysignal_lab/nautilus_runtime/recorded_market_data.py:427-440 | The test for an existing close subscription can never succeed when quotes are opened |
| RecordedMarketData.UniverseKeepsInv | src/polysignal_lab/nautilus_runtime/recorded_market_data.py:442-463 | Retired conditions hold no quotes, and every close subscription belongs to a quoted or retired condition, after every universe event |
| RecordedMarketData.InstrumentExactly | src/polysignal_lab/nautilus_runtime/recorded_market_data.py:410-440 | An arriving instrument puts on record quotes and closes of both tokens of a market it completes, unless the condition is quoted or retired, and nothing else |
| RecordedMarketData.UniverseExactly | src/polysignal_lab/nautilus_runtime/recorded_market_data.py:442-510 | A universe event drops the quotes of what it exits without listing it, gives a retired condition that it lists quotes of exactly the instruments still held for their close, and touches no close |
| RecordedMarketData.CloseExactly | src/polysignal_lab/nautilus_runtime/recorded_market_data.py:475-491 | A close takes its own instrument and no other off the closes; an entry stays only while it holds an instrument; quotes, retired conditions and builder stay |
| MarketCatalog.RegisterKeepsConsistentExactly | src/polysignal_lab/nautilus_runtime/market_catalog.py:129-143 | Registering keeps reverse dictionary, memo and index in agreement with the condition dictionary if and only if it gives no token to a second condition |
| MarketCatalog.RegistersStayConsistent | src/polysignal_lab/nautilus_runtime/market_catalog.py:129-143 | So does any sequence of such registers |
| MarketCatalog.RegistersKeepLastWrites | src/polysignal_lab/nautilus_runtime/market_catalog.py:129-143 | The condition dictionary is the last pair registered for each condition |
| MarketCatalog.RegistersKeepOrder | src/polysignal_lab/nautilus_runtime/market_catalog.py:129-143 | The dictionary lists its conditions in the order in which each was first registered |
| MarketCatalog.ByTokenScans | src/polysignal_lab/nautilus_runtime/market_catalog.py:151-155 | A token lookup answers as a linear scan of the condition dictionary does |
| MarketCatalog.SharedTokenIsLost | src/polysignal_lab/nautilus_runtime/market_catalog.py:129-155 | Two conditions claiming one token: the lookup follows the last, the scan the first, and re-registering the first loses the token of the second |
| MarketCatalog.MarketCatalog.InstrumentIdForToken | src/polysignal_lab/nautilus_runtime/market_catalog.py:167-187 | The memoised instrument id is what the scan would resolve, before and after any lookups |
| MarketCatalog.MarketCatalog.MarketIdForInstrument | src/polysignal_lab/nautilus_runtime/market_catalog.py:189-194 | The first market in dictionary order that resolves to the instrument |
| MarketCatalog.MarketCatalog.TimeframeForInstrument | src/polysignal_lab/nautilus_runtime/market_catalog.py:196-216 | The lazily built index answers as the scan does |
| MarketCatalog.ScanMarketIs | src/polysignal_lab/nautilus_runtime/market_catalog.py:189-194 | The reference scan: the market id of the first market one of whose tokens resolves to the instrument, or none where none does |
| MarketCatalog.ScanTimeframeIs | src/polysignal_lab/nautilus_runtime/market_catalog.py:196-216 | The reference scan: the timeframe of the last such market, or none |
| MarketCatalog.ScanInstrumentIs | src/polysignal_lab/nautilus_runtime/market_catalog.py:167-187 | The reference scan: what the token resolves to under the first condition that holds it, or none |
| MarketCatalog.MarketCatalog.RegisterPair | src/polysignal_lab/nautilus_runtime/market_catalog.py:129-143 | The new state of a register, kept consistent if no token is shared |
| DecisionPolicy.DecisionPolicy.BatchArbitrate | src/polysignal_lab/nautilus_runtime/decision_policy.py:179-193 | Approvals and rejections together are the batch as a multiset; approved are exactly the decisions that are enabled, unpaired or one of exactly one UP and one DOWN enabled leg of their pair, and accepted by the gate; each rejection carries the reason that applies |
| DecisionPolicy.DecisionPolicy.PartitionBatch | src/polysignal_lab/nautilus_runtime/decision_policy.py:195-253 | Before the gate: every decision is on exactly one side, as often as submitted, refused for the right reason |
| DecisionPolicy.DecisionPolicy.GateBatch | src/polysignal_lab/nautilus_runtime/decision_policy.py:255-303 | The gate's split keeps every decision, with the gate's own reason code |
| DecisionPolicy.WholePairExactly | src/polysignal_lab/nautilus_runtime/decision_policy.py:227-253 | The length-and-sides test accepts a group if and only if the batch holds exactly one enabled UP and one enabled DOWN leg of the pair |
| DecisionPolicy.Fate | src/polysignal_lab/nautilus_runtime/decision_policy.py:179-193 | In every result of arbitration each submitted decision is among the approvals, or among the rejections with its one reason, and never in both |
| DecisionPolicy.OutcomeExactly | src/polysignal_lab/nautilus_runtime/decision_policy.py:179-303 | Approval and reason in terms of the batch alone: counted by their places, one enabled leg on each side of the pair, or no pair; refused as disabled, as malformed from two legs on, as incomplete with one, or with the code of the gate |
| DecisionPolicy.BothLegsOrNeither | src/polysignal_lab/nautilus_runtime/decision_policy.py:195-253 | In every result of arbitration two enabled decisions of one pair id are both refused as a pair or neither is |
| DecisionPolicy.PairSplitsExactly | src/polysignal_lab/nautilus_runtime/decision_policy.py:255-303 | Of a whole pair exactly one leg comes out approved if and only if the verdicts of the gate on the two differ; the other is then rejected with the code of the gate |
| DecisionPolicy.PairIsSplit | src/polysignal_lab/nautilus_runtime/decision_policy.py:255-303 | A batch of one whole pair and a gate for which every result approves one leg and rejects the other |
| DecisionPolicy.DecisionPolicy.SetStrategyEnabled | src/polysignal_lab/nautilus_runtime/decision_policy.py:126-130 | Enables or disables one strategy and no other |
| OrderTags.RoundTripExactly | src/polysignal_lab/nautilus_runtime/projections.py:358-373 | Tags printed as key=value, in any order, parse back to the same dictionary if and only if no key contains the separator |
| OrderTags.SplitKey | src/polysignal_lab/nautilus_runtime/projections.py:358-373 | A key that contains the separator comes back as another key |
| OrderTags.Tags | src/polysignal_lab/nautilus_runtime/projections.py:358-373 | The parsing loop: the first separator splits, later entries win, entries without one are ignored |
| OrderTags.ParsedExactly | src/polysignal_lab/nautilus_runtime/projections.py:358-373 | A key has a value if and only if some text gives it that value and no later text gives it any; texts without the separator give nothing |
| OrderTags.SubmittedTagsParseBack | src/polysignal_lab/nautilus_runtime/order_plan.py:128-228 | Whatever a decision holds, the tags built for its order survive printing and parsing and say what `TagsSay` lists |
| OrderTags.TagsSay | src/polysignal_lab/nautilus_runtime/order_plan.py:128-228 | Every tag of an order, one by one: identity, prices and intent of its decision, the optional tags where they apply, exit tags for exits and exit prices for entries, pair and time in force; no later tag overwrites an earlier one |
| OrderTags.ParsePrinted | src/polysignal_lab/nautilus_runtime/native_order.py:109-121 | One printed tag parses back to its key and value, whatever the value contains |
| OrderTags.KeysAreDistinct | src/polysignal_lab/alpha/types.py:437-442 | Two decisions have one dedupe key if and only if they are both entries or both exits of one strategy on one side of one market, given that no field holds the separator |
| OrderTags.CodesSplit | src/polysignal_lab/nautilus_runtime/order_plan.py:175-176 | Reason codes can be told apart again unless one holds the separator |
| ExitLoop.SingleExitInFlight | src/polysignal_lab/nautilus_runtime/native_strategy_exit.py:76-159 | In every run in which live orders stay in the cache, positions keep their instrument and condition, and no foreign order names a position, no position ever has two live exits that name it; for any gate verdicts, books, thresholds and interleaving of venue updates |
| TradingState.ExitOrderVisibleExactly | src/polysignal_lab/alpha/types.py:209-215 | The trading state shows an exit for a position if and only if some live cached order names it as reduce-only with a strategy, on an instrument the catalog knows and, in a snapshot of all conditions, under the view's own condition |
| ExitLoop.SubmittedExitClaims | src/polysignal_lab/nautilus_runtime/order_plan.py:181-207 | The order made from an exit decision names its own position and no other, sits on the position's instrument and carries its condition: the position id survives decision, plan, print and parse |
| ExitLoop.OtherDecisionsClaimNothing | src/polysignal_lab/nautilus_runtime/order_plan.py:181-207 | Entries and reduce-only decisions without a position id never make an order that names a position |
| ExitLoop.InvisibleExactly | src/polysignal_lab/nautilus_runtime/cache_trading_state.py:73-113 | A cached order has no view in any trading state if and only if its tags name no strategy |
| ExitLoop.ResolutionCloseIsInvisible | src/polysignal_lab/nautilus_runtime/strategy/resolution_settlement.py:677-698 | The close requested at resolution names its position but no strategy: wherever it lies in the cache, every round submits exactly what it would submit without it |
| ExitLoop.CloseIsDoubled | src/polysignal_lab/nautilus_runtime/strategy/resolution_settlement.py:677-698 | So where a round would submit an exit for the position without the close, it does so with it, and two live orders then name the position |
| ExitLoop.CloseAndExitBothLive | src/polysignal_lab/nautilus_runtime/strategy/resolution_settlement.py:677-698 | A concrete cache, policy and round in which that happens |
| ExitLoop.SecondOrderExactly | src/polysignal_lab/nautilus_runtime/native_strategy_exit.py:76-159 | Counting every live order that names a position, seen by the policy or not: a round adds a second one if and only if it submits an exit for a position some live order already names, and that order is never an exit the policy can see |
| ExitRuns.AlwaysSingleExactly | src/polysignal_lab/nautilus_runtime/native_strategy_exit.py:76-159 | Asked of the cache before the round: no round, under any policy, gives a position a second live order that names it if and only if every live order in the cache that names a position is an exit the policy can see |
| ExitRuns.RunsSingleExactly | src/polysignal_lab/nautilus_runtime/native_strategy_exit.py:76-159 | The same over every legal run whose other orders name no position |
| ExitRuns.UnseenIsDoubled | src/polysignal_lab/nautilus_runtime/native_strategy_exit.py:76-159 | For each live order that names a position and is no exit the policy sees, the round that adds a second one |
| ExitRuns.CloseCanBeDoubled | src/polysignal_lab/nautilus_runtime/strategy/resolution_settlement.py:677-698 | The close requested at resolution is such an order, wherever it lies in the cache |
| ExitRuns.SingleExitInFairRuns | src/polysignal_lab/nautilus_runtime/cache_trading_state.py:121-199 | No position ever has two visible live exits in any run in which positions stay on their instruments and placed entries carry the condition the catalog gives their instrument: that a position keeps its condition follows from its entries |
| TradingState.ConditionFollows | src/polysignal_lab/nautilus_runtime/cache_trading_state.py:121-199 | The condition of a position, taken from its latest linked entry order or else its instrument, is then the one the catalog gives the instrument |
| TradingState.LatestEntryIs | src/polysignal_lab/nautilus_runtime/cache_trading_state.py:138-179 | The entry chosen among the linked orders: no other entry changed later, among those that changed last none has a later client order id, and among equals it comes first; there is none only if no linked order is an entry |
| TradingState.ViewSays | src/polysignal_lab/nautilus_runtime/cache_trading_state.py:73-113 | An order has a view if and only if the catalog knows its instrument and its tags name a strategy; then the view repeats what order and tags say, field by field |
| TradingState.PositionViewExactly | src/polysignal_lab/nautilus_runtime/cache_trading_state.py:121-199 | A position has a view if and only if the catalog knows its instrument, it has an id and a size, and an order linked to it, or else any on its instrument, is an entry; strategy and condition are those of the latest such entry |
| TradingState.TruthyTexts | src/polysignal_lab/nautilus_runtime/cache_trading_state.py:254-255 | Samples of what counts as yes |
| ExitPolicy.ExitDecisions | src/polysignal_lab/nautilus_runtime/native_strategy_exit.py:76-105 | The deciding loop: in the order of the positions, one decision for each position of the view's condition that has an id, a size, a token of the pair with a positive bid, a reason to close and no visible live exit; it names the position and sells it at the bid for the first reason that applies |
| ExitPolicy.DecideExactly | src/polysignal_lab/nautilus_runtime/native_strategy_exit.py:107-196 | When a single position gets a decision and what the decision says, with each switch, threshold and bound on its own |
| TradingState.TradingStateFromCache | src/polysignal_lab/nautilus_runtime/cache_trading_state.py:33-60 | The reading loops yield, in cache order, one view for each order and position that has one in scope, and nothing else |
| ExitLoop.SubmittedAreDistinct | src/polysignal_lab/nautilus_runtime/strategy/decision_pipeline.py:366-408 | No two submitted decisions of one round share a dedupe key, nor has any a key that was live before |
| ExitLoop.SubmittedExactly | src/polysignal_lab/nautilus_runtime/strategy/decision_pipeline.py:366-430 | A decision is submitted if and only if the gate accepts it, its key was not in flight and no earlier accepted one of the round has it; the submitted keep their order |
| ExitLoop.ApplyDecisions | src/polysignal_lab/nautilus_runtime/strategy/decision_pipeline.py:366-408 | The submitting loop yields exactly those decisions, in their order |
| ExitRounds.DueIsSubmitted | src/polysignal_lab/nautilus_runtime/native_strategy_exit.py:76-159 | From cache to order: every position that needs an exit gets a decision, and it is submitted if the gate accepts it, no live order the round sees has its key and no earlier position is due on the same side |
| ExitRounds.SubmittedIsNotRepeated | src/polysignal_lab/nautilus_runtime/strategy/decision_pipeline.py:366-430 | What one round submitted no later round, under any policy, submits again while its order lives: its key survives decision, tags, print, parse and view, wherever the order then lies in the cache |
| ExitRounds.LiveKeyBlocks | src/polysignal_lab/nautilus_runtime/cache_trading_state.py:17-30 | The same for any cached live order that carries the tags of a decision |
| ExitRounds.StateSees | src/polysignal_lab/nautilus_runtime/cache_trading_state.py:33-60 | A round sees the orders that have a view: all of them, or those of its own condition |
| EntryThresholds.BalancedEntryGovernsExit | src/polysignal_lab/nautilus_runtime/native_strategy_exit.py:161-220 | From computing to closing: thresholds computed for a positive entry below the cap, put into metrics, stamped on tags, printed in any order, cached, parsed, found as the latest of the position and compared with the bid close it for profit exactly at their own target, and at a loss exactly at their own stop if and only if that stop is positive, that is less than the whole entry is at risk or the cap binds (a zero stop is not stamped), or the stop price of the policy is not positive; asked of the numbers is only that these two read back as written |
| EntryThresholds.OneEntryGovernsExit | src/polysignal_lab/nautilus_runtime/native_strategy_exit.py:161-220 | One entry for which all of that is so: at 0.5 with half of it at risk at even odds it closes at 0.25 and 0.75 |
| EntryThresholds.ZeroStopIsOverruled | src/polysignal_lab/nautilus_runtime/native_strategy_exit.py:161-220 | An entry with the whole of it at risk: its own stop is zero, and at a bid of 0.05 the stop price of the policy closes it |
| EntryThresholds.StampSurvives | src/polysignal_lab/nautilus_runtime/order_plan.py:181-207 | The view of the cached order of an entry carries exactly the exit prices its metrics named, and is not an exit |
| EntryThresholds.LatestRules | src/polysignal_lab/alpha/types.py:275-302 | If every other stamped entry order of the position came before, the thresholds found are those of this one |
| TradingState.ExitThresholds | src/polysignal_lab/alpha/types.py:275-302 | The sorting and scanning finds the thresholds of the latest entry order of the position that has any, by time, then client order id, or none when none has |
| EntryThresholds.PositiveIsStamped | src/polysignal_lab/nautilus_runtime/native_strategy_exit.py:198-220 | Of a computed pair exactly the positive prices are stamped |
| EntryThresholds.FromMetricsExactly | src/polysignal_lab/nautilus_runtime/native_strategy_exit.py:198-220 | Which exit prices metrics name: computed before set by hand, positive ones only, an enabled flip price in place of the stop |
| DepthWeightedAsk.DepthAsk | src/polysignal_lab/alpha/decisions.py:39-52 | With non-negative sizes there is a price if and only if shares are positive and total size covers them; and whenever there is a price, price times shares is the least cost over all allocations across the levels, whatever order they came in, if and only if no size is negative |
| DepthWeightedAsk.FillIsOptimal | src/polysignal_lab/alpha/decisions.py:39-52 | Taking the cheapest levels first costs the minimum over all feasible allocations of the original list |
| DepthWeightedAsk.DualBound | src/polysignal_lab/alpha/decisions.py:39-52 | No allocation is cheaper than buying everything at any price q less the savings of the levels below q |
| DepthWeightedAsk.AllocationsNeedSizes | src/polysignal_lab/alpha/decisions.py:39-52 | Where any size is negative no cost is the least one |
| DepthWeightedAsk.NegativeSizeMisprices | src/polysignal_lab/alpha/decisions.py:39-52 | Two levels, one of negative size, for which the fill comes to a cost although there is no allocation |
| ZigZag.PushedReads | src/polysignal_lab/alpha/fibonacci_core.py:40-84 | One push-then-finalize step: direction, running extreme and latest swings are those of the legs of the whole price history, for every threshold, although the deques drop old entries and the code decides from tick directions |
| ZigZag.LegsTile | src/polysignal_lab/alpha/fibonacci_core.py:40-74 | The legs alternate and tile the history; each leg's peak is its highest or lowest price, each next leg starts where a price came back from it by the threshold, and the latest price has not |
| ZigZag.SwingGap | src/polysignal_lab/alpha/fibonacci_core.py:76-101 | Both swings exist if and only if the history has reversed; then the last high exceeds the last low, by the threshold fraction of the swing the running leg left |
| ZigZag.ThresholdTurns | src/polysignal_lab/alpha/fibonacci_core.py:56-74 | A move of exactly the threshold turns the direction, half the threshold asked for does not |
| ZigZag.BetweenSwings | src/polysignal_lab/alpha/fibonacci_core.py:110-116 | A retracement level divides the swing from its high to its low in its ratio, and lies strictly between the swings if and only if the ratio is in (0, 1) |
| ZigZag.RetracesOrder | src/polysignal_lab/alpha/fibonacci_core.py:110-116 | Only one level divides the swing in a ratio, and a larger ratio gives a lower level |
| ZigZag.ResumeAnywhere | src/polysignal_lab/alpha/fibonacci_core.py:286-337 | Saving and loading at any point changes no later state, and the resumed detector reads the whole history |
| ZigZag.SwingsKept | src/polysignal_lab/alpha/fibonacci_core.py:40-84 | A price adds at most the extreme it turns away from and the one it makes, and of each list of swings only the oldest beyond ten are dropped |
| ZigZag.PushedElsewhere | src/polysignal_lab/alpha/fibonacci_core.py:52-74 | States only loading can bring about: without an extreme the next different price is one, and nothing turns away from an extreme that is not positive |
| ZigZag.FinalizedTwice | src/polysignal_lab/alpha/fibonacci_core.py:76-84 | Finalizing twice enters no extreme twice |
| ZigZag.ZigZagDetector.Push | src/polysignal_lab/alpha/fibonacci_core.py:40-74 | The new state of a push, branch by branch |
| ZigZag.ZigZagDetector.FinalizeLastExtreme | src/polysignal_lab/alpha/fibonacci_core.py:76-84 | The new state of a finalization |
| ZigZag.ZigZagDetector.ComputeSetup | src/polysignal_lab/alpha/fibonacci_core.py:167-194 | A setup appears if and only if the history has reversed and there are ratios; its swings are the latest peaks, its levels divide the swing from high to low in the ratios, lower for larger ones, strictly between the swings for ratios in (0, 1); an absent, non-positive or unconfirmed price changes nothing |
| ZigZag.ZigZagDetector.LoadState | src/polysignal_lab/alpha/fibonacci_core.py:305-337 | Loading a saved record restores the detector that saved it |
| BinaryMomentum.ComputeEma | src/polysignal_lab/alpha/binary_momentum_core.py:40-49 | The averages after the first period, period plus one, ... prices |
| BinaryMomentum.EmaWithin | src/polysignal_lab/alpha/binary_momentum_core.py:40-49 | Every average lies within any bounds of the prices it has seen |
| BinaryMomentum.EmaMoved | src/polysignal_lab/alpha/binary_momentum_core.py:40-49 | Averages commute with every shift and scale of the prices |
| BinaryMomentum.EmaIs | src/polysignal_lab/alpha/binary_momentum_core.py:40-49 | The average in closed form: with k = 2 / (period + 1), the i-th of n prices has the share k (1 - k)^(n - 1 - i), each of the first ones (1 - k)^(n - period) / period |
| BinaryMomentum.ComputeMacd | src/polysignal_lab/alpha/binary_momentum_core.py:51-72 | Line, signal and histogram of the paired averages; when there are too few prices, and when the shifted list index runs out of the list |
| BinaryMomentum.PairsExactly | src/polysignal_lab/alpha/binary_momentum_core.py:60-63 | Every slow average is paired with the fast average ending at the same price if and only if the fast period is at most the slow one; the index fails if and only if twice the fast period exceeds the number of prices plus one plus the slow period (a negative index counts from the end) |
| BinaryMomentum.LongFastPeriod | src/polysignal_lab/alpha/binary_momentum_core.py:60-63 | Periods 26, 12, 9: with 38 prices the index runs off the list, with 40 the slow average after 12 prices is paired with the fast one after 27 |
| BinaryMomentum.MacdMoved | src/polysignal_lab/alpha/binary_momentum_core.py:51-72 | The indicator scales with the prices and ignores shifts |
| BinaryMomentum.MacdShiftInvariant | src/polysignal_lab/alpha/binary_momentum_core.py:51-72 | Shifting all prices changes nothing |
| BinaryMomentum.MacdIs | src/polysignal_lab/alpha/binary_momentum_core.py:51-72 | Unless the fast period is the longer one: the line is the fast average less the slow average of the same prices, the signal the average of the lines, all in closed form, and the histogram what the line exceeds the signal by |
| BinaryMomentum.ComputeRsi | src/polysignal_lab/alpha/binary_momentum_core.py:74-93 | A value exists if and only if there is one more price than the period, it is the strength of the smoothed averages, and it is in [0, 100] |
| BinaryMomentum.SmoothedIs | src/polysignal_lab/alpha/binary_momentum_core.py:78-90 | The smoothed gain and loss in closed form: averages of the moves with weight 1 / period |
| BinaryMomentum.MoveIs | src/polysignal_lab/alpha/binary_momentum_core.py:78-82 | A move up is a gain and a move down a loss, never both |
| BinaryMomentum.StrengthExactly | src/polysignal_lab/alpha/binary_momentum_core.py:91-93 | The strength is the gain's share of all movement, 0 if and only if there were losses and no gain, 100 if and only if there was no loss |
| BinaryMomentum.RsiMirrored | src/polysignal_lab/alpha/binary_momentum_core.py:74-93 | Upside-down prices have the complementary strength if and only if something moved that the smoothing remembers |
| BinaryMomentum.StillPricesHaveNoMirror | src/polysignal_lab/alpha/binary_momentum_core.py:74-93 | Two equal prices have strength 100 either way up |
| BinaryMomentum.Evaluate | src/polysignal_lab/alpha/binary_momentum_core.py:95-131 | At most one of UP and DOWN is emitted, and exactly the one that line, signal, histogram, strength limits, book, average price and position allow |
| BinaryMomentum.DirectionMoved | src/polysignal_lab/alpha/binary_momentum_core.py:145-176 | No shift and no positive scaling of the prices changes the direction pointed to |
| BinaryMomentum.MirrorSwapsDirections | src/polysignal_lab/alpha/binary_momentum_core.py:145-176 | Upside-down prices swap UP and DOWN for symmetric limits (the defaults) and a strength period of at least 2 |
| TickGrid.LeastPrecisionExactly | src/polysignal_lab/nautilus_runtime/_polymarket_common_compat.py:203-253 | The derived precision is the least p for which tick times 10^p is whole, if and only if the tick's significant digits fit the decimal context or it is a whole number; for every context precision |
| TickGrid.TickOfTwentyNineDigits | src/polysignal_lab/nautilus_runtime/_polymarket_common_compat.py:203-253 | The tick 1.0000000000000000000000000001 gets precision 0, which does not hold it |
| TickGrid.LastDigitLost | src/polysignal_lab/nautilus_runtime/_polymarket_common_compat.py:230 | So for every context: a tick of one more digit, a one at each end, normalizes to 1 |
| TickGrid.PricePrecision | src/polysignal_lab/nautilus_runtime/_polymarket_common_compat.py:233-253 | A precision exists if and only if the tick is a positive finite decimal whose derived precision is at most 18, and is that one |
| TickGrid.NormalizedKeeps | src/polysignal_lab/nautilus_runtime/_polymarket_common_compat.py:230 | Normalizing a tick that fits the context only strips trailing zeros |
| TickGrid.NormalizedLoses | src/polysignal_lab/nautilus_runtime/_polymarket_common_compat.py:230 | One that does not fit loses its last digits |
| TickGrid.RoundedExactly | src/polysignal_lab/nautilus_runtime/_polymarket_common_compat.py:230 | Rounding to the context is half to even at the last digit it keeps, and it keeps as many digits as fit |
| TickGrid.TickAlignedLossless | src/polysignal_lab/nautilus_runtime/_polymarket_common_compat.py:272-293 | Every whole number of ticks is represented without loss at the derived precision |
| TickGrid.QuantizedNear | src/polysignal_lab/nautilus_runtime/cache_market_data.py:235-251 | A quantized value is on the grid, within half a unit of the original and at the even multiple on a tie; one beyond the context passes through |
| TickGrid.QuantizedTwice | src/polysignal_lab/nautilus_runtime/cache_market_data.py:235-251 | Quantizing twice changes nothing more |
| TickGrid.QuantizedMonotone | src/polysignal_lab/nautilus_runtime/cache_market_data.py:235-251 | Quantization keeps order, also between values that fit the context and values passed through raw |
| TickGrid.SpreadExactly | src/polysignal_lab/nautilus_runtime/cache_market_data.py:254-266 | The spread of a quantized book is the exact difference, non-negative for an uncrossed book, within one unit of the raw spread |
| TickGrid.SpreadNonNegative | src/polysignal_lab/nautilus_runtime/cache_market_data.py:254-266 | No uncrossed book has a negative spread, at any magnitude, with or without a precision |
| SlotSlugs.SlotsExactly | src/polysignal_lab/data/market_discovery_helpers.py:138-148 | The slots generated are exactly the period multiples that are not too far ahead and ended less than the grace ago, if and only if the grace is at most one period more than the time into the current slot |
| SlotSlugs.LongGraceMissesSlot | src/polysignal_lab/data/market_discovery_helpers.py:138-148 | At second 310 of 5-minute slots with a grace of 400 the slot that ended at 0 is wanted and not generated |
| SlotSlugs.SlotsAreContiguous | src/polysignal_lab/data/market_discovery_helpers.py:138-148 | They are increasing, one per period, none left out |
| SlotSlugs.TimeframesExactly | src/polysignal_lab/data/market_discovery_helpers.py:46-50 | A timeframe is a positive whole number of minutes without leading zeros and an m, worth sixty seconds each |
| SlotSlugs.SlotsAreAllowed | src/polysignal_lab/data/market_discovery_helpers.py:274-296 | Every generated slot passes the window filter, for every grace |
| SlotSlugs.OnlySlotsAllowedExactly | src/polysignal_lab/data/market_discovery_helpers.py:274-296 | The filter admits no other slot if and only if the grace differs from the time into the current slot and is less than one period more than it |
| SlotSlugs.RefusedExactly | src/polysignal_lab/data/market_discovery_helpers.py:274-296 | What the window filter refuses: only when active open markets are wanted, one with both times that starts too far ahead or ended before the grace |
| SlotSlugs.GraceJustOverAllowsSlot | src/polysignal_lab/data/market_discovery_helpers.py:274-296 | At second 310 of 5-minute slots with a grace of 10 the slot that ended at 300 passes the filter and is not generated |
| SlotSlugs.BuildCurrentSlotSlugs | src/polysignal_lab/data/market_discovery_helpers.py:122-152 | The slugs built are exactly those of the slots of every listed asset and timeframe, trimmed and lowered, in listing order |
| SlotSlugs.MatchExactly | src/polysignal_lab/data/market_discovery_helpers.py:215-232 | A slug matches if and only if, whatever its case, it is an asset of letters and digits, the word updown, a number of minutes and a number between hyphens, perhaps before a newline, and the configuration lists its asset in any case and its timeframe as it stands |
| SlotSlugs.MatchPrintedExactly | src/polysignal_lab/data/market_discovery_helpers.py:215-232 | A printed slug, in whatever case it arrives, matches back to its asset and timeframe if and only if the asset is plain, the slot is not before the epoch and the configuration lists both as printed |
| SlotSlugs.UpperTimeframeIsNeverMatched | src/polysignal_lab/data/market_discovery_helpers.py:215-232 | With asset BTC and timeframe 5M configured the slug of slot 0 is built, and is not matched |
| SlotSlugs.SlugsAreDistinct | src/polysignal_lab/data/market_discovery_helpers.py:149-152 | Different slots of plain assets never share a slug |
| SlotSlugs.WindowExactly | src/polysignal_lab/data/anchor_price_service.py:19-42 | The window recovered from a slug is the slot if and only if the timeframe is 5m or 15m and the slot is not before the epoch |
| SlotSlugs.OwnTimesFirst | src/polysignal_lab/data/anchor_price_service.py:34-42 | Both of a market's own times are its window; one alone is not looked at; otherwise only 5m and 15m have one |
| SlotSlugs.ReadIntSamples | src/polysignal_lab/data/anchor_price_service.py:27-31 | Samples of what reads as a whole number |
| SlotSlugs.SlotBeforeEpochIsMirrored | src/polysignal_lab/data/anchor_price_service.py:27-42 | The slot at -300 is read back as the window from 300 to 600 |
| TpSl.BalancedExactly | src/polysignal_lab/alpha/ptb_diff_core.py:35-67 | 0 <= stop < entry < target <= cap and reward equals ratio times risk, if and only if the entry is positive and below the cap and stop fraction and ratio are positive; for all real inputs |
| TpSl.WidestBalanced | src/polysignal_lab/alpha/ptb_diff_core.py:52-67 | Capping never lowers the stop, raises it exactly when it binds, and no balanced pair that respects the requested stop and the cap has a lower stop or a higher target |
| TpSl.StopPositiveExactly | src/polysignal_lab/alpha/ptb_diff_core.py:35-67 | For a positive entry below the cap the stop is positive if and only if the stop fraction is below 1 or the cap is below what the whole entry at risk would earn |
| TpSl.UnbalancedIs | src/polysignal_lab/alpha/ptb_diff_core.py:35-67 | The thresholds where there is no balance: nothing for a non-positive entry, a stop alone without risk or reward, the cap for an entry at or above it |
| TpSl.EntryAboveCap | src/polysignal_lab/alpha/ptb_diff_core.py:52-67 | An entry at 0.9 under a cap of 0.8 gets a target of 0.8 |
| RepeatSuppressor.PruningIsInvisible | src/polysignal_lab/nautilus_runtime/observability.py:150-161 | With a clock that never goes back the table pruned above 4096 entries, the table never pruned and the call history give the same answer on every call of every run |
| RepeatSuppressor.PrunedExactly | src/polysignal_lab/nautilus_runtime/observability.py:150-161 | A passed record makes a table of more than 4096 forget all records older than a minute, and nothing else is ever forgotten |
| RepeatSuppressor.PassesAreApart | src/polysignal_lab/nautilus_runtime/observability.py:150-161 | Two passed records of one key are at least the time-to-live apart |
| RepeatSuppressor.SuppressedFollowsPass | src/polysignal_lab/nautilus_runtime/observability.py:150-161 | A suppressed record has an equal one before it that passed and is less than the time-to-live old |
| RepeatSuppressor.Suppressor.SuppressRepeat | src/polysignal_lab/nautilus_runtime/observability.py:150-161 | A record is suppressed if and only if an equal one passed within the time-to-live |
| TelemetryOutbox.EveryEventAccounted | src/polysignal_lab/nautilus_runtime/observability.py:183-263 | In every interleaving of producers, any number of writers and stops that drop one event at a time, each event offered was written, failed, was refused, was dropped at a stop, is queued or is being written, as often as it was offered; accepted events leave in the order they came; the queue keeps its bound |
| TelemetryOutbox.RefusedExactly | src/polysignal_lab/nautilus_runtime/observability.py:213-223 | In every interleaving an offer is refused if and only if the bound is positive and exactly that many events are queued; otherwise it joins the end of the queue |
| TelemetryOutbox.RoomyRunRefusesNothing | src/polysignal_lab/nautilus_runtime/observability.py:213-223 | A run whose queue never holds its whole bound at an offer, or that has no bound, refuses nothing |
| TelemetryOutbox.Outbox.EnqueueBestEffort | src/polysignal_lab/nautilus_runtime/observability.py:213-223 | Queues the event and counts nothing if the bound is not positive or fewer events are queued; otherwise leaves the queue and counts one drop |
| TelemetryOutbox.Outbox.WriteTelemetryEvent | src/polysignal_lab/nautilus_runtime/observability.py:241-263 | Ends after at most retries plus one tries; succeeds if and only if the store takes the event after being locked on all tries before |
| TelemetryOutbox.Outbox.DrainTelemetryOnce | src/polysignal_lab/nautilus_runtime/observability.py:198-211 | Takes the oldest event, which ends written or failed as the store decides |
| TelemetryOutbox.Outbox.Stop | src/polysignal_lab/nautilus_runtime/observability_persistence.py:334-350 | Empties the queue and counts every dropped event |
| TelemetryHealth.RegistryNeverOverstates | src/polysignal_lab/nautilus_runtime/observability.py:183-263 | Outbox and registry together, in every interleaving of queue operations with the unlocked read, copy and replace steps of any number of threads: no more drops are shown than events were refused or dropped, no more write failures than events failed, no more retries than there were |
| TelemetryHealth.AlwaysExactExactly | src/polysignal_lab/nautilus_runtime/observability.py:183-263 | Throughout a run the registry shows the drops, failures and retries of the outbox exactly, but for what a thread has yet to report, if and only if no report overwrites what another thread has reported since |
| TelemetryHealth.RunOnTheBooks | src/polysignal_lab/nautilus_runtime/observability_persistence.py:259-350 | Whatever a counter reports either was reported or is still owed by some thread, never both |
| TelemetryHealth.OutboxOnItsOwn | src/polysignal_lab/nautilus_runtime/observability.py:183-263 | However the reports of the threads interleave, the outbox of a joint run is the outbox run on its own on what they made it do |
| TelemetryHealth.RegistryMoves | src/polysignal_lab/nautilus_runtime/observability_persistence.py:244-331 | The registry moves by the looks and commits of the threads only, each commit reporting what its thread owes |
| HealthCounters.CountersNeverOverstate | src/polysignal_lab/nautilus_runtime/observability_persistence.py:244-331 | However the updates of several threads interleave, each raising any number of counters in one replace, no health counter shows more than was reported |
| HealthCounters.StepExactly | src/polysignal_lab/nautilus_runtime/observability_persistence.py:244-331 | A commit keeps exact counters exact if and only if, of what it writes, nothing has been replaced since it was read |
| HealthCounters.AlwaysExactExactly | src/polysignal_lab/nautilus_runtime/observability_persistence.py:244-331 | The counters are exact throughout a run if and only if no commit of it overwrites another thread's |
| HealthCounters.AloneCounts | src/polysignal_lab/nautilus_runtime/observability_persistence.py:244-331 | A thread nobody interrupts raises the counter it read by what it reports and changes no other |
| HealthCounters.CopyAgainExactly | src/polysignal_lab/nautilus_runtime/observability_persistence.py:244-277 | A second copy keeps what the first holds and adds the counters it lacks |
| HealthCounters.DropDisappears | src/polysignal_lab/nautilus_runtime/observability_persistence.py:244-277 | From every state: a drop that a producer counts vanishes when the writer then commits a backlog it copied before |

## Left out

Runtime and libraries:

- Nautilus itself, Gamma parsing, the signal gate and the stores: what they answer is a parameter (`gate`, `resolve`, `accepts`, `store`, a matched payload).
- Threads are interleavings of atomic queue operations; sleeping, joining and file writing do not appear.
- Binary floating-point rounding; JSON encoding; non-ASCII letters, digits and spaces.
- Dashboard, command line, Telegram, archive scans, configuration defaults and the single-filter strategies are not modelled.

Market universe:

- MarketRotation.MarketRotationActor.ReceiveInstrument: market tuples are sets, so their order is not captured; price-to-beat events, their dedupe, spot data and the actor's own subscriptions and requests do not appear; metadata events are the latest per condition.
- RotationProtocol.DeltaReplay: stated from a start to the next stop; `StopKeepsDeltaExactly` says when a consumer can go on across the stop.
- RecordedMarketData.RecordedMarketDataActor.ReceiveInstrument: an instrument id is a condition and a token, a client is a timeframe; the recorded file, spot subscriptions and quote recovery do not appear.
- MarketCatalog.MarketCatalog.RegisterPair: token metadata and the exceptions of the default id resolver do not appear; lookups are specified for catalogs in which no two conditions share a token.

Decision to exit:

- DecisionPolicy.DecisionPolicy.BatchArbitrate: contents and reasons, not the order of approvals; the gate answers each decision by itself, so state it carries from one decision to the next does not appear.
- ExitLoop.SingleExitInFlight: counts the orders the policy can see; `ExitRuns.RunsSingleExactly` counts every live order that names a position and says from which caches the law then holds. A close that names no position at all is in neither count.
- TradingState.ExitThresholds: client order ids are numbers in the order of their texts. Market id, pair id, status, price, fills and side of an order view do not appear.
- ExitPolicy.ExitDecisions: of a decision's metrics those that reach the tags of an exit; quantity is left out.
- Order price and quantity, the entry price ceiling and the remaining trading-state queries are not modelled.

Numbers and windows:

- DepthWeightedAsk.DepthAsk: how book levels come to be filtered to positive sizes does not appear.
- ZigZag.ZigZagDetector.LoadState: malformed payloads (missing keys, other direction texts, text for numbers) do not appear; candles, the momentum statistics and the zone decisions are left out.
- BinaryMomentum.ComputeEma: takes periods of at least 1, as do the other indicators; a period of 0 divides by zero in the source. The spot window and the volume-weighted prices are inputs.
- TickGrid.SpreadExactly: the subtraction of two decimals is exact, so its own rounding beyond 28 digits does not appear; exponent limits of the decimal context do not appear.
- SlotSlugs.WindowExactly: the limits of the calendar do not appear.

Bookkeeping:

- RepeatSuppressor.Suppressor.SuppressRepeat: keys are texts rather than tuples; calls are one after the other.
- TelemetryOutbox.EveryEventAccounted: a service without a store, which offers nothing, does not appear; the daily report poll does not appear.
- HealthCounters.CountersNeverOverstate: the backlog gauge, statuses and timestamps do not appear.
- TelemetryOutbox.Outbox.Stop: the class is the service as one thread at a time uses it; its counters stand for the registry there, and `TelemetryHealth` treats several threads.

/** An order's identity travels as tags: printed as `key=value` when the order is submitted, parsed back when the
    order is read from the cache. */
module OrderTags {
  import opened Options
  import opened Text
  import opened Sides

  // ---------- printing and parsing ----------

  function PrintTag(key: string, value: string): string {
    key + "=" + value
  }

  /** The tags of a dictionary, its keys taken in the given order. */
  function PrintTags(tags: map<string, string>, keys: seq<string>): seq<string>
    requires forall k | k in keys :: k in tags
  {
    seq(|keys|, n requires 0 <= n < |keys| => assert keys[n] in keys; PrintTag(keys[n], tags[keys[n]]))
  }

  function ParseOne(parsed: map<string, string>, text: string): map<string, string> {
    if '=' in text then parsed[text[..IndexOf(text, '=')] := text[IndexOf(text, '=') + 1..]] else parsed
  }

  function ParseTags(raw: seq<string>): map<string, string> {
    if raw == [] then map[] else ParseOne(ParseTags(raw[..|raw| - 1]), raw[|raw| - 1])
  }

  method Tags(raw: seq<string>) returns (parsed: map<string, string>)
    ensures parsed == ParseTags(raw)
  {
    parsed := map[];
    for n := 0 to |raw|
      invariant parsed == ParseTags(raw[..n])
    {
      assert raw[..n + 1][..n] == raw[..n];
      if '=' in raw[n] {
        var at := IndexOf(raw[n], '=');
        parsed := parsed[raw[n][..at] := raw[n][at + 1..]];
      }
    }
    assert raw[..|raw|] == raw;
  }

  function Get(tags: map<string, string>, key: string): Option<string> {
    if key in tags then Some(tags[key]) else None
  }

  /** `keys` lists the keys of the dictionary once each. */
  ghost predicate Lists(keys: seq<string>, tags: map<string, string>) {
    && (forall j, k | 0 <= j < k < |keys| :: keys[j] != keys[k])
    && (forall k :: k in keys <==> k in tags)
  }

  lemma ParsePrinted(parsed: map<string, string>, key: string, value: string)
    requires '=' !in key
    ensures ParseOne(parsed, PrintTag(key, value)) == parsed[key := value]
  {
    var text := PrintTag(key, value);
    assert text == key + ['='] + value;
    IndexOfAppend(key, '=', value);
    assert text[..|key|] == key && text[|key| + 1..] == value;
    assert text[|key|] == '=';
  }

  lemma {:induction false} ParsedKeysArePlain(raw: seq<string>)
    ensures forall k | k in ParseTags(raw) :: '=' !in k
  {
    if raw != [] {
      ParsedKeysArePlain(raw[..|raw| - 1]);
      var text := raw[|raw| - 1];
      if '=' in text {
        var at := IndexOf(text, '=');
        assert forall c | c in text[..at] :: c != '=';
      }
    }
  }

  /** The text gives the key this value. */
  predicate Gives(text: string, key: string, value: string) {
    '=' !in key && text == key + "=" + value
  }

  lemma GivesExactly(text: string, key: string, value: string)
    ensures Gives(text, key, value) <==>
      '=' in text && text[..IndexOf(text, '=')] == key && text[IndexOf(text, '=') + 1..] == value
  {
    if Gives(text, key, value) {
      assert text == key + ['='] + value;
      IndexOfAppend(key, '=', value);
      assert text[|key|] == '=';
    }
    if '=' in text {
      var at := IndexOf(text, '=');
      assert text == text[..at] + [text[at]] + text[at + 1..];
      assert forall c | c in text[..at] :: c != '=';
    }
  }

  /** A key has a value exactly if some text gives it that value and no later text gives it any; texts without the
      separator give nothing. */
  lemma {:induction false} ParsedExactly(raw: seq<string>, key: string, value: string)
    ensures Get(ParseTags(raw), key) == Some(value) <==>
      exists n :: && 0 <= n < |raw| && Gives(raw[n], key, value)
                  && forall m, other | n < m < |raw| :: !Gives(raw[m], key, other)
  {
    if raw != [] {
      var init, text := raw[..|raw| - 1], raw[|raw| - 1];
      ParsedExactly(init, key, value);
      assert forall n | 0 <= n < |init| :: raw[n] == init[n];
      if '=' in text && text[..IndexOf(text, '=')] == key {
        LastTextGives(raw, key, value, text[IndexOf(text, '=') + 1..]);
      } else {
        forall other ensures !Gives(text, key, other) {
          GivesExactly(text, key, other);
        }
        NothingMore(init, text, key, value);
        assert raw == init + [text];
      }
    }
  }

  lemma LastTextGives(raw: seq<string>, key: string, value: string, other: string)
    requires
      raw != [] && var text := raw[|raw| - 1];
      '=' in text && text[..IndexOf(text, '=')] == key && text[IndexOf(text, '=') + 1..] == other
    ensures Get(ParseTags(raw), key) == Some(value) <==> Gives(raw[|raw| - 1], key, value)
    ensures Gives(raw[|raw| - 1], key, value) <==>
      exists n :: && 0 <= n < |raw| && Gives(raw[n], key, value)
                  && forall m, other | n < m < |raw| :: !Gives(raw[m], key, other)
  {
    GivesExactly(raw[|raw| - 1], key, other);
    GivesExactly(raw[|raw| - 1], key, value);
  }

  lemma NothingMore(init: seq<string>, text: string, key: string, value: string)
    requires forall other :: !Gives(text, key, other)
    ensures
      var raw := init + [text];
      (exists n :: && 0 <= n < |raw| && Gives(raw[n], key, value)
                   && forall m, other | n < m < |raw| :: !Gives(raw[m], key, other))
      <==> exists n :: && 0 <= n < |init| && Gives(init[n], key, value)
                       && forall m, other | n < m < |init| :: !Gives(init[m], key, other)
  {
    var raw := init + [text];
    assert forall n | 0 <= n < |init| :: raw[n] == init[n];
    assert raw[|init|] == text;
    if n :| && 0 <= n < |init| && Gives(init[n], key, value)
            && forall m, other | n < m < |init| :: !Gives(init[m], key, other) {
      assert Gives(raw[n], key, value);
      forall m, other | n < m < |raw| ensures !Gives(raw[m], key, other) {
        assert m < |init| ==> raw[m] == init[m];
      }
    }
  }

  /** `parsed` is the part of the dictionary that the first n keys give. */
  ghost predicate Part(parsed: map<string, string>, tags: map<string, string>, keys: seq<string>, n: nat)
    requires n <= |keys|
  {
    && (forall k :: k in parsed <==> k in keys[..n])
    && (forall k | k in parsed :: k in tags && parsed[k] == tags[k])
  }

  lemma PartGrows(parsed: map<string, string>, tags: map<string, string>, keys: seq<string>, n: nat)
    requires n < |keys| && keys[n] in tags && Part(parsed, tags, keys, n)
    ensures Part(parsed[keys[n] := tags[keys[n]]], tags, keys, n + 1)
  {
    assert keys[..n + 1] == keys[..n] + [keys[n]];
  }

  lemma {:induction false} ParsePrintedPrefix(tags: map<string, string>, keys: seq<string>, n: nat)
    requires (forall k | k in keys :: k in tags) && n <= |keys| && forall k | k in tags :: '=' !in k
    ensures Part(ParseTags(PrintTags(tags, keys)[..n]), tags, keys, n)
  {
    if n > 0 {
      ParsePrintedPrefix(tags, keys, n - 1);
      var printed, key := PrintTags(tags, keys), keys[n - 1];
      assert printed[..n][..n - 1] == printed[..n - 1];
      assert key in keys;
      var before := ParseTags(printed[..n - 1]);
      ParsePrinted(before, key, tags[key]);
      assert ParseTags(printed[..n]) == before[key := tags[key]];
      PartGrows(before, tags, keys, n - 1);
    }
  }

  /** Printed tags parse back to the same dictionary, in whatever order they were printed, exactly when no key
      contains the separator. Values may contain anything. */
  lemma RoundTripExactly(tags: map<string, string>, keys: seq<string>)
    requires Lists(keys, tags)
    ensures ParseTags(PrintTags(tags, keys)) == tags <==> forall k | k in tags :: '=' !in k
  {
    var printed := PrintTags(tags, keys);
    if forall k | k in tags :: '=' !in k {
      ParsePrintedPrefix(tags, keys, |keys|);
      assert printed[..|keys|] == printed && keys[..|keys|] == keys;
      var parsed := ParseTags(printed);
      assert parsed.Keys == tags.Keys;
    } else {
      ParsedKeysArePlain(printed);
    }
  }

  /** A key with the separator in it comes back as another key. */
  lemma SplitKey()
    ensures ParseTags(PrintTags(map["a=b" := "c"], ["a=b"])) == map["a" := "b=c"]
  {
    var tags := map["a=b" := "c"];
    assert PrintTag("a=b", tags["a=b"]) == "a=b=c" == PrintTag("a", "b=c");
    assert PrintTags(tags, ["a=b"]) == [PrintTag("a", "b=c")];
    assert [PrintTag("a", "b=c")][..0] == [];
    ParsePrinted(map[], "a", "b=c");
  }

  // ---------- the tags of a decision ----------

  datatype Intent = PassiveGtd | TakerFak | TakerFok | TakerIoc

  datatype IntentSpec = IntentSpec(intent: Intent, expirySeconds: Option<string>, pairId: Option<string>,
                                   reduceOnly: bool)

  /** A trading decision, its numbers already rendered as text. `metrics` holds the metrics that are not None;
      `takeProfit` and `stopLoss` are the entry-time exit prices found in them. */
  datatype Decision = Decision(
    signalId: string, strategy: string, asset: string, timeframe: string, marketId: string, marketSlug: string,
    conditionId: string, tokenId: string, side: Side, confidence: string, entryReferencePrice: string,
    maxEntryPrice: string, secondsToClose: Option<string>, dataFreshnessMs: Option<string>,
    reasonCodes: seq<string>, metrics: map<string, string>,
    takeProfit: Option<string>, stopLoss: Option<string>, order: Option<IntentSpec>, hedgeLeg: bool)
  {
    predicate ReduceOnly() {
      order.Some? && order.value.reduceOnly
    }

    function ResolvedIntent(): Intent {
      if order.None? then TakerIoc else order.value.intent
    }

    function DedupeKey(): string {
      asset + ":" + timeframe + ":" + marketId + ":" + SideText(side) + ":" + strategy + ":" +
        (if ReduceOnly() then "exit" else "entry")
    }
  }

  function SideText(side: Side): string {
    if side.Up? then "UP" else "DOWN"
  }

  function IntentText(intent: Intent): string {
    match intent
    case PassiveGtd => "passive_gtd"
    case TakerFak => "taker_fak"
    case TakerFok => "taker_fok"
    case TakerIoc => "taker_ioc"
  }

  function JoinCodes(codes: seq<string>): string {
    Join(codes, '|')
  }

  /** The codes of a tag can be told apart again, unless one holds the separator. */
  lemma CodesSplit(codes: seq<string>)
    requires codes != [] && forall code | code in codes :: '|' !in code
    ensures Split(JoinCodes(codes), '|') == codes
  {
    JoinSplits(codes, '|');
  }

  predicate KeyFieldsArePlain(d: Decision) {
    ':' !in d.asset && ':' !in d.timeframe && ':' !in d.marketId && ':' !in d.strategy
  }

  lemma OneMorePart(a: string, parts: seq<string>)
    requires parts != []
    ensures Join([a] + parts, ':') == a + ":" + Join(parts, ':')
  {
    assert ([a] + parts)[1..] == parts;
  }

  lemma SixParts(a: string, b: string, c: string, d: string, e: string, f: string)
    ensures Join([a] + ([b] + ([c] + ([d] + ([e] + [f])))), ':') ==
            a + ":" + (b + ":" + (c + ":" + (d + ":" + (e + ":" + f))))
  {
    OneMorePart(e, [f]);
    OneMorePart(d, [e] + [f]);
    OneMorePart(c, [d] + ([e] + [f]));
    OneMorePart(b, [c] + ([d] + ([e] + [f])));
    OneMorePart(a, [b] + ([c] + ([d] + ([e] + [f]))));
  }

  lemma Grouped(a: string, b: string, c: string, d: string, e: string, f: string)
    ensures a + ":" + b + ":" + c + ":" + d + ":" + e + ":" + f ==
            a + ":" + (b + ":" + (c + ":" + (d + ":" + (e + ":" + f))))
  {
    var ef := e + ":" + f;
    var df := d + ":" + ef;
    var cf := c + ":" + df;
    assert a + ":" + b + ":" + c + ":" + d + ":" + e + ":" + f == a + ":" + b + ":" + c + ":" + d + ":" + ef;
    assert a + ":" + b + ":" + c + ":" + d + ":" + ef == a + ":" + b + ":" + c + ":" + df;
    assert a + ":" + b + ":" + c + ":" + df == a + ":" + b + ":" + cf;
  }

  lemma KeyParts(d: Decision)
    requires KeyFieldsArePlain(d)
    ensures Split(d.DedupeKey(), ':') ==
      [d.asset, d.timeframe, d.marketId, if d.side == Up then "UP" else "DOWN", d.strategy,
       if d.ReduceOnly() then "exit" else "entry"]
  {
    var side, last := SideText(d.side), if d.ReduceOnly() then "exit" else "entry";
    var parts := [d.asset, d.timeframe, d.marketId, side, d.strategy, last];
    assert ':' !in "UP" && ':' !in "DOWN" && ':' !in "exit" && ':' !in "entry";
    assert parts ==
      [d.asset] + ([d.timeframe] + ([d.marketId] + ([side] + ([d.strategy] + [last]))));
    SixParts(d.asset, d.timeframe, d.marketId, side, d.strategy, last);
    Grouped(d.asset, d.timeframe, d.marketId, side, d.strategy, last);
    JoinSplits(parts, ':');
  }

  /** Two decisions have one dedupe key exactly if they are both entries or both exits of one strategy on one side of
      one market. */
  lemma KeysAreDistinct(d: Decision, e: Decision)
    requires KeyFieldsArePlain(d) && KeyFieldsArePlain(e)
    ensures d.DedupeKey() == e.DedupeKey() <==>
      && d.asset == e.asset && d.timeframe == e.timeframe && d.marketId == e.marketId && d.side == e.side
      && d.strategy == e.strategy && d.ReduceOnly() == e.ReduceOnly()
  {
    KeyParts(d);
    KeyParts(e);
    if d.DedupeKey() == e.DedupeKey() {
      var a, b := Split(d.DedupeKey(), ':'), Split(e.DedupeKey(), ':');
      assert a[0] == b[0] && a[1] == b[1] && a[2] == b[2] && a[3] == b[3] && a[4] == b[4] && a[5] == b[5];
      assert |"UP"| != |"DOWN"| && |"exit"| != |"entry"|;
    }
  }

  function PutOptional(tags: map<string, string>, key: string, value: Option<string>): map<string, string> {
    if value.Some? then tags[key := value.value] else tags
  }

  function CoreTags(d: Decision): map<string, string> {
    map["signal_id" := d.signalId, "strategy" := d.strategy, "asset" := d.asset, "timeframe" := d.timeframe,
        "market_id" := d.marketId, "market_slug" := d.marketSlug, "condition_id" := d.conditionId,
        "token_id" := d.tokenId,
        "side" := SideText(d.side), "confidence" := d.confidence, "entry_reference_price" := d.entryReferencePrice,
        "max_entry_price" := d.maxEntryPrice, "order_intent" := IntentText(d.ResolvedIntent()),
        "dedupe_key" := d.DedupeKey()]
  }

  function WithOptional(tags: map<string, string>, d: Decision): map<string, string> {
    var t1 := PutOptional(tags, "seconds_to_close", d.secondsToClose);
    var t2 := PutOptional(t1, "data_freshness_ms", d.dataFreshnessMs);
    var t3 := if d.reasonCodes != [] then t2["reason_codes" := JoinCodes(d.reasonCodes)] else t2;
    if d.hedgeLeg then t3["hedge_leg" := "true"] else t3
  }

  const EXIT_METRICS := ["position_id", "exit_reason", "entry_price", "position_quantity", "stake_usdc", "opened_at"]

  function CopyMetrics(tags: map<string, string>, metrics: map<string, string>, keys: seq<string>)
    : (r: map<string, string>)
    ensures forall k :: k in r <==> k in tags || (k in keys && k in metrics && metrics[k] != "")
    ensures forall k | k in r :: r[k] == if k in keys && k in metrics && metrics[k] != "" then metrics[k] else tags[k]
    decreases keys
  {
    if keys == [] then tags
    else
      var rest := CopyMetrics(tags, metrics, keys[1..]);
      assert forall k :: k in keys <==> k == keys[0] || k in keys[1..];
      if keys[0] in metrics && metrics[keys[0]] != "" then rest[keys[0] := metrics[keys[0]]] else rest
  }

  function WithExit(tags: map<string, string>, d: Decision): map<string, string> {
    if d.ReduceOnly() then CopyMetrics(tags["reduce_only" := "true"], d.metrics, EXIT_METRICS)
    else PutOptional(PutOptional(tags, "exit_tp_price", d.takeProfit), "exit_stop_price", d.stopLoss)
  }

  function WithTimeInForce(tags: map<string, string>, d: Decision): map<string, string> {
    match d.ResolvedIntent()
    case PassiveGtd =>
      PutOptional(tags["time_in_force" := "GTD"], "expire_seconds",
        if d.order.Some? then d.order.value.expirySeconds else None)
    case TakerFok => tags["time_in_force" := "FOK"]
    case intent =>
      var t := tags["time_in_force" := "IOC"]["fill_policy" := if intent.TakerFak? then "FAK" else "IOC"];
      if d.order.None? then t["sandbox_safe_default" := "true"] else t
  }

  function BuildOrderTags(d: Decision): map<string, string> {
    var t := WithExit(WithOptional(CoreTags(d), d), d);
    WithTimeInForce(PutOptional(t, "pair_id", if d.order.Some? then d.order.value.pairId else None), d)
  }

  const CORE_KEYS: set<string> :=
    {"signal_id", "strategy", "asset", "timeframe", "market_id", "market_slug", "condition_id", "token_id", "side",
     "confidence", "entry_reference_price", "max_entry_price", "order_intent", "dedupe_key"}
  const OPTIONAL_KEYS: set<string> := {"seconds_to_close", "data_freshness_ms", "reason_codes", "hedge_leg"}
  const EXIT_KEYS: set<string> :=
    {"reduce_only", "position_id", "exit_reason", "entry_price", "position_quantity", "stake_usdc", "opened_at"}
  const OTHER_KEYS: set<string> :=
    {"exit_tp_price", "exit_stop_price", "pair_id", "time_in_force", "expire_seconds", "fill_policy",
     "sandbox_safe_default"}
  const TAG_KEYS: set<string> := CORE_KEYS + OPTIONAL_KEYS + EXIT_KEYS + OTHER_KEYS

  predicate Plain(key: string) {
    '=' !in key
  }

  lemma CoreKeysArePlain()
    ensures forall k | k in CORE_KEYS :: Plain(k)
  {
    assert Plain("signal_id") && Plain("strategy") && Plain("asset") && Plain("timeframe") && Plain("market_id");
    assert Plain("market_slug") && Plain("condition_id") && Plain("token_id") && Plain("side") && Plain("confidence");
    assert Plain("entry_reference_price") && Plain("max_entry_price") && Plain("order_intent") && Plain("dedupe_key");
  }

  lemma OptionalKeysArePlain()
    ensures forall k | k in OPTIONAL_KEYS :: Plain(k)
  {
    assert Plain("seconds_to_close") && Plain("data_freshness_ms") && Plain("reason_codes") && Plain("hedge_leg");
  }

  lemma ExitKeysArePlain()
    ensures forall k | k in EXIT_KEYS :: Plain(k)
  {
    assert Plain("reduce_only") && Plain("position_id") && Plain("exit_reason") && Plain("entry_price");
    assert Plain("position_quantity") && Plain("stake_usdc") && Plain("opened_at");
  }

  lemma OtherKeysArePlain()
    ensures forall k | k in OTHER_KEYS :: Plain(k)
  {
    assert Plain("exit_tp_price") && Plain("exit_stop_price") && Plain("pair_id") && Plain("time_in_force");
    assert Plain("expire_seconds") && Plain("fill_policy") && Plain("sandbox_safe_default");
  }

  lemma TagKeysArePlain()
    ensures forall k | k in TAG_KEYS :: '=' !in k
  {
    CoreKeysArePlain();
    OptionalKeysArePlain();
    ExitKeysArePlain();
    OtherKeysArePlain();
    forall k | k in TAG_KEYS ensures '=' !in k {
      assert Plain(k);
    }
  }

  lemma TagsUseKnownKeys(d: Decision)
    ensures BuildOrderTags(d).Keys <= TAG_KEYS
  {
    assert CoreTags(d).Keys <= TAG_KEYS;
    assert WithOptional(CoreTags(d), d).Keys <= TAG_KEYS;
    assert WithExit(WithOptional(CoreTags(d), d), d).Keys <= TAG_KEYS;
  }

  /** Whatever the decision holds, its printed tags parse back to the tags that were built. */
  lemma SubmittedTagsParseBack(d: Decision, keys: seq<string>)
    requires Lists(keys, BuildOrderTags(d))
    ensures ParseTags(PrintTags(BuildOrderTags(d), keys)) == BuildOrderTags(d)
    ensures Says(d, ParseTags(PrintTags(BuildOrderTags(d), keys)))
  {
    TagsSay(d);
    TagKeysArePlain();
    TagsUseKnownKeys(d);
    RoundTripExactly(BuildOrderTags(d), keys);
  }

  // ---------- what each tag says ----------

  function When(b: bool, text: string): Option<string> {
    if b then Some(text) else None
  }

  /** A metric that an exit order copies, if the decision is an exit and has it. */
  function Copied(d: Decision, key: string): Option<string> {
    if d.ReduceOnly() && key in d.metrics && d.metrics[key] != "" then Some(d.metrics[key]) else None
  }

  predicate SaysCore(d: Decision, tags: map<string, string>) {
    && Get(tags, "signal_id") == Some(d.signalId) && Get(tags, "strategy") == Some(d.strategy)
    && Get(tags, "asset") == Some(d.asset) && Get(tags, "timeframe") == Some(d.timeframe)
    && Get(tags, "market_id") == Some(d.marketId) && Get(tags, "market_slug") == Some(d.marketSlug)
    && Get(tags, "condition_id") == Some(d.conditionId) && Get(tags, "token_id") == Some(d.tokenId)
    && Get(tags, "side") == Some(if d.side == Up then "UP" else "DOWN")
    && Get(tags, "confidence") == Some(d.confidence)
    && Get(tags, "entry_reference_price") == Some(d.entryReferencePrice)
    && Get(tags, "max_entry_price") == Some(d.maxEntryPrice) && Get(tags, "dedupe_key") == Some(d.DedupeKey())
    && Get(tags, "order_intent") == Some(
         if d.order == None then "taker_ioc"
         else match d.order.value.intent
           case PassiveGtd => "passive_gtd" case TakerFak => "taker_fak" case TakerFok => "taker_fok"
           case TakerIoc => "taker_ioc")
  }

  predicate SaysOptional(d: Decision, tags: map<string, string>) {
    && Get(tags, "seconds_to_close") == d.secondsToClose && Get(tags, "data_freshness_ms") == d.dataFreshnessMs
    && Get(tags, "reason_codes") == When(d.reasonCodes != [], JoinCodes(d.reasonCodes))
    && Get(tags, "hedge_leg") == When(d.hedgeLeg, "true")
  }

  predicate SaysExit(d: Decision, tags: map<string, string>) {
    && Get(tags, "reduce_only") == When(d.ReduceOnly(), "true")
    && Get(tags, "position_id") == Copied(d, "position_id") && Get(tags, "exit_reason") == Copied(d, "exit_reason")
    && Get(tags, "entry_price") == Copied(d, "entry_price")
    && Get(tags, "position_quantity") == Copied(d, "position_quantity")
    && Get(tags, "stake_usdc") == Copied(d, "stake_usdc") && Get(tags, "opened_at") == Copied(d, "opened_at")
    && Get(tags, "exit_tp_price") == (if d.ReduceOnly() then None else d.takeProfit)
    && Get(tags, "exit_stop_price") == (if d.ReduceOnly() then None else d.stopLoss)
  }

  predicate SaysTime(d: Decision, tags: map<string, string>) {
    var intent := if d.order == None then TakerIoc else d.order.value.intent;
    && Get(tags, "pair_id") == (if d.order == None then None else d.order.value.pairId)
    && Get(tags, "time_in_force") == Some(if intent == PassiveGtd then "GTD" else if intent == TakerFok then "FOK"
                                          else "IOC")
    && Get(tags, "expire_seconds") == (if d.order.Some? && intent == PassiveGtd then d.order.value.expirySeconds
                                       else None)
    && Get(tags, "fill_policy") == (if intent == TakerFak then Some("FAK")
                                    else When(intent == TakerIoc, "IOC"))
    && Get(tags, "sandbox_safe_default") == When(d.order == None, "true")
  }

  /** The whole of an order's identity, one tag each. */
  predicate Says(d: Decision, tags: map<string, string>) {
    SaysCore(d, tags) && SaysOptional(d, tags) && SaysExit(d, tags) && SaysTime(d, tags)
  }

  lemma OptionalIsApart()
    ensures CORE_KEYS !! OPTIONAL_KEYS
  {
    assert "seconds_to_close" !in CORE_KEYS && "data_freshness_ms" !in CORE_KEYS;
    assert "reason_codes" !in CORE_KEYS && "hedge_leg" !in CORE_KEYS;
  }

  const EARLY_KEYS: set<string> := CORE_KEYS + OPTIONAL_KEYS
  const STAMP_KEYS: set<string> := {"exit_tp_price", "exit_stop_price"}
  const TIME_KEYS: set<string> := {"pair_id", "time_in_force", "expire_seconds", "fill_policy", "sandbox_safe_default"}

  lemma ExitIsApart()
    ensures EARLY_KEYS !! EXIT_KEYS + STAMP_KEYS
  {
    assert "reduce_only" !in EARLY_KEYS && "position_id" !in EARLY_KEYS && "exit_reason" !in EARLY_KEYS;
    assert "entry_price" !in EARLY_KEYS && "position_quantity" !in EARLY_KEYS && "stake_usdc" !in EARLY_KEYS;
    assert "opened_at" !in EARLY_KEYS && "exit_tp_price" !in EARLY_KEYS && "exit_stop_price" !in EARLY_KEYS;
  }

  lemma TimeIsApart()
    ensures EARLY_KEYS + (EXIT_KEYS + STAMP_KEYS) !! TIME_KEYS
  {
    assert "pair_id" !in EARLY_KEYS && "time_in_force" !in EARLY_KEYS && "expire_seconds" !in EARLY_KEYS;
    assert "fill_policy" !in EARLY_KEYS && "sandbox_safe_default" !in EARLY_KEYS;
    assert "pair_id" !in EXIT_KEYS && "time_in_force" !in EXIT_KEYS && "expire_seconds" !in EXIT_KEYS;
    assert "fill_policy" !in EXIT_KEYS && "sandbox_safe_default" !in EXIT_KEYS;
    assert "pair_id" !in STAMP_KEYS && "time_in_force" !in STAMP_KEYS && "expire_seconds" !in STAMP_KEYS;
    assert "fill_policy" !in STAMP_KEYS && "sandbox_safe_default" !in STAMP_KEYS;
  }

  /** The two dictionaries agree on these keys. */
  predicate Agree(a: map<string, string>, b: map<string, string>, keys: set<string>) {
    forall k | k in keys :: Get(a, k) == Get(b, k)
  }

  lemma CoreSays(d: Decision)
    ensures SaysCore(d, CoreTags(d)) && CoreTags(d).Keys == CORE_KEYS
  {
  }

  lemma SaysCoreAgrees(d: Decision, a: map<string, string>, b: map<string, string>)
    requires SaysCore(d, a) && Agree(a, b, CORE_KEYS)
    ensures SaysCore(d, b)
  {
  }

  lemma OptionalGets(t: map<string, string>, d: Decision)
    requires t.Keys !! OPTIONAL_KEYS
    ensures SaysOptional(d, WithOptional(t, d))
    ensures forall k | k !in OPTIONAL_KEYS :: Get(WithOptional(t, d), k) == Get(t, k)
  {
    var t1 := PutOptional(t, "seconds_to_close", d.secondsToClose);
    var t2 := PutOptional(t1, "data_freshness_ms", d.dataFreshnessMs);
    assert "seconds_to_close" !in t && "data_freshness_ms" !in t && "reason_codes" !in t && "hedge_leg" !in t;
    assert Get(t2, "seconds_to_close") == d.secondsToClose && Get(t2, "data_freshness_ms") == d.dataFreshnessMs;
    assert "reason_codes" !in t2 && "hedge_leg" !in t2;
  }

  lemma OptionalSays(d: Decision)
    ensures SaysOptional(d, WithOptional(CoreTags(d), d)) && SaysCore(d, WithOptional(CoreTags(d), d))
    ensures WithOptional(CoreTags(d), d).Keys <= EARLY_KEYS
  {
    var core, t := CoreTags(d), WithOptional(CoreTags(d), d);
    CoreSays(d);
    OptionalIsApart();
    OptionalGets(core, d);
    forall k | k in t ensures k in EARLY_KEYS {
      assert k !in OPTIONAL_KEYS ==> Get(t, k) == Get(core, k);
    }
    assert Agree(core, t, CORE_KEYS);
    SaysCoreAgrees(d, core, t);
  }

  lemma EarlyAgrees(d: Decision, a: map<string, string>, b: map<string, string>)
    requires SaysCore(d, a) && SaysOptional(d, a) && Agree(a, b, EARLY_KEYS)
    ensures SaysCore(d, b) && SaysOptional(d, b)
  {
    assert Agree(a, b, CORE_KEYS);
    SaysCoreAgrees(d, a, b);
    assert "seconds_to_close" in EARLY_KEYS && "data_freshness_ms" in EARLY_KEYS && "reason_codes" in EARLY_KEYS;
    assert "hedge_leg" in EARLY_KEYS;
  }

  lemma ExitMetricsAre()
    ensures forall k :: k in EXIT_METRICS <==> k in EXIT_KEYS - {"reduce_only"}
  {
    assert EXIT_METRICS[0] == "position_id" && EXIT_METRICS[1] == "exit_reason" && EXIT_METRICS[2] == "entry_price";
    assert EXIT_METRICS[3] == "position_quantity" && EXIT_METRICS[4] == "stake_usdc" && EXIT_METRICS[5] == "opened_at";
  }

  lemma StampsSay(t: map<string, string>, d: Decision)
    requires !d.ReduceOnly() && t.Keys <= EARLY_KEYS
    ensures SaysExit(d, WithExit(t, d)) && Agree(t, WithExit(t, d), EARLY_KEYS)
    ensures WithExit(t, d).Keys <= EARLY_KEYS + (EXIT_KEYS + STAMP_KEYS)
  {
    ExitIsApart();
    assert forall k | k in EXIT_KEYS :: k !in t && k !in STAMP_KEYS;
  }

  lemma ExitGets(t: map<string, string>, d: Decision)
    requires d.ReduceOnly() && t.Keys <= EARLY_KEYS
    ensures
      var r := WithExit(t, d);
      && Get(r, "reduce_only") == Some("true")
      && (forall k | k in EXIT_METRICS :: Get(r, k) == Copied(d, k))
      && (forall k | k !in EXIT_METRICS && k != "reduce_only" :: Get(r, k) == Get(t, k))
  {
    ExitIsApart();
    ExitMetricsAre();
    var u := t["reduce_only" := "true"];
    forall k | k in EXIT_METRICS ensures k !in u {
      assert k in EXIT_KEYS;
    }
  }

  lemma ExitSays(t: map<string, string>, d: Decision)
    requires d.ReduceOnly() && t.Keys <= EARLY_KEYS
    ensures SaysExit(d, WithExit(t, d)) && Agree(t, WithExit(t, d), EARLY_KEYS)
    ensures WithExit(t, d).Keys <= EARLY_KEYS + (EXIT_KEYS + STAMP_KEYS)
  {
    ExitIsApart();
    ExitMetricsAre();
    ExitGets(t, d);
    ExitMetricsSay(t, d, WithExit(t, d));
    var r := WithExit(t, d);
    forall k | k in r ensures k in EARLY_KEYS + (EXIT_KEYS + STAMP_KEYS) {
      assert k in EXIT_METRICS || k == "reduce_only" || Get(r, k) == Get(t, k);
    }
  }

  lemma ExitMetricsSay(t: map<string, string>, d: Decision, r: map<string, string>)
    requires d.ReduceOnly() && t.Keys <= EARLY_KEYS && Get(r, "reduce_only") == Some("true")
    requires forall k | k in EXIT_METRICS :: Get(r, k) == Copied(d, k)
    requires forall k | k !in EXIT_METRICS && k != "reduce_only" :: Get(r, k) == Get(t, k)
    ensures SaysExit(d, r)
  {
    ExitIsApart();
    StampsAreApart();
    assert "exit_tp_price" in STAMP_KEYS && "exit_stop_price" in STAMP_KEYS;
    assert "position_id" in EXIT_METRICS && "exit_reason" in EXIT_METRICS && "entry_price" in EXIT_METRICS;
    assert "position_quantity" in EXIT_METRICS && "stake_usdc" in EXIT_METRICS && "opened_at" in EXIT_METRICS;
  }

  lemma StampsAreApart()
    ensures forall k | k in STAMP_KEYS :: k !in EXIT_METRICS && k != "reduce_only"
  {
    ExitMetricsAre();
    assert "exit_tp_price" !in EXIT_KEYS && "exit_stop_price" !in EXIT_KEYS;
  }

  lemma ExitAgrees(d: Decision, a: map<string, string>, b: map<string, string>)
    requires SaysExit(d, a) && Agree(a, b, EXIT_KEYS + STAMP_KEYS)
    ensures SaysExit(d, b)
  {
    var keys := EXIT_KEYS + STAMP_KEYS;
    assert "reduce_only" in keys && "position_id" in keys && "exit_reason" in keys && "entry_price" in keys;
    assert "position_quantity" in keys && "stake_usdc" in keys && "opened_at" in keys;
    assert "exit_tp_price" in keys && "exit_stop_price" in keys;
  }

  lemma TimeSays(t: map<string, string>, d: Decision)
    requires t.Keys <= EARLY_KEYS + (EXIT_KEYS + STAMP_KEYS)
    ensures
      var r := WithTimeInForce(PutOptional(t, "pair_id", if d.order.Some? then d.order.value.pairId else None), d);
      SaysTime(d, r) && Agree(t, r, EARLY_KEYS + (EXIT_KEYS + STAMP_KEYS))
  {
    TimeIsApart();
  }

  lemma TagsSay(d: Decision)
    ensures Says(d, BuildOrderTags(d))
  {
    var t := WithOptional(CoreTags(d), d);
    var u, tags := WithExit(t, d), BuildOrderTags(d);
    OptionalSays(d);
    if d.ReduceOnly() { ExitSays(t, d); } else { StampsSay(t, d); }
    EarlyAgrees(d, t, u);
    TimeSays(u, d);
    assert Agree(u, tags, EARLY_KEYS) && Agree(u, tags, EXIT_KEYS + STAMP_KEYS);
    EarlyAgrees(d, u, tags);
    ExitAgrees(d, u, tags);
  }
}

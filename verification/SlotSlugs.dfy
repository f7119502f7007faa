/** Time slots of the up-or-down markets: which slots are asked for, how a slot's slug is printed, and what is read
    back from it. */
module SlotSlugs {
  import opened Options
  import opened Text

  function Max(a: int, b: int): int {
    if b > a then b else a
  }

  // ---------- numbers as text ----------

  predicate IsDigit(c: char) {
    '0' <= c <= '9'
  }

  predicate AllDigits(s: string) {
    forall i | 0 <= i < |s| :: IsDigit(s[i])
  }

  function DigitChar(d: nat): char
    requires d < 10
  {
    (d + 48) as char
  }

  function NatText(n: nat): (s: string)
    ensures s != "" && AllDigits(s)
  {
    if n < 10 then [DigitChar(n)] else NatText(n / 10) + [DigitChar(n % 10)]
  }

  function IntText(n: int): string {
    if n < 0 then "-" + NatText(-n) else NatText(n)
  }

  function NatValue(s: string): nat
    requires AllDigits(s)
  {
    if s == "" then 0 else 10 * NatValue(s[..|s| - 1]) + (s[|s| - 1] as int - 48)
  }

  lemma {:induction false} NatTextValue(n: nat)
    ensures NatValue(NatText(n)) == n
  {
    if n >= 10 {
      NatTextValue(n / 10);
      assert NatText(n)[..|NatText(n)| - 1] == NatText(n / 10);
    }
  }

  /** A whole number as Python's int reads one without a minus sign: spaces around, a plus sign, single underscores
      inside. */
  function ReadInt(text: string): Option<int> {
    var s := Strip(text);
    ReadUnsigned(if s != "" && s[0] == '+' then s[1..] else s)
  }

  function ReadUnsigned(digits: string): Option<int> {
    if UnderscoresInside(digits) && AllDigits(WithoutUnderscores(digits))
    then Some(NatValue(WithoutUnderscores(digits))) else None
  }

  predicate UnderscoresInside(s: string) {
    s != "" && s[0] != '_' && s[|s| - 1] != '_' && !DoubleUnderscore(s)
  }

  predicate DoubleUnderscore(s: string) {
    |s| >= 2 && ((s[0] == '_' && s[1] == '_') || DoubleUnderscore(s[1..]))
  }

  function WithoutUnderscores(s: string): string {
    if s == "" then "" else WithoutUnderscores(s[..|s| - 1]) + (if s[|s| - 1] == '_' then "" else [s[|s| - 1]])
  }

  lemma {:induction false} NoUnderscores(s: string)
    requires AllDigits(s)
    ensures WithoutUnderscores(s) == s
  {
    if s != "" {
      NoUnderscores(s[..|s| - 1]);
    }
  }

  lemma {:induction false} NoDouble(s: string)
    requires AllDigits(s)
    ensures !DoubleUnderscore(s)
  {
    if |s| >= 2 {
      NoDouble(s[1..]);
    }
  }

  lemma DigitsAlone(s: string)
    requires AllDigits(s) && s != ""
    ensures Strip(s) == s && s[0] != '+'
  {
    assert IsDigit(s[0]) && IsDigit(s[|s| - 1]);
  }

  lemma ReadDigits(s: string)
    requires AllDigits(s) && s != ""
    ensures ReadUnsigned(s) == Some(NatValue(s))
  {
    NoUnderscores(s);
    NoDouble(s);
  }

  lemma ReadIntText(n: nat)
    ensures ReadInt(NatText(n)) == Some(n)
  {
    DigitsAlone(NatText(n));
    ReadDigits(NatText(n));
    NatTextValue(n);
  }

  // ---------- slots ----------

  function TimeframeSeconds(timeframe: string): (r: Option<int>)
    ensures r.Some? ==> r.value > 0
  {
    var n := |timeframe|;
    if n >= 2 && timeframe[n - 1] == 'm' && AllDigits(timeframe[..n - 1]) && timeframe[0] != '0'
    then PositiveText(timeframe[..n - 1]); Some(NatValue(timeframe[..n - 1]) * 60) else None
  }

  lemma {:induction false} PositiveText(s: string)
    requires AllDigits(s) && s != "" && s[0] != '0'
    ensures NatValue(s) > 0
  {
    if |s| > 1 {
      PositiveText(s[..|s| - 1]);
    } else {
      assert s[..0] == "";
    }
  }

  lemma {:induction false} TextOfValue(s: string)
    requires AllDigits(s) && s != "" && s[0] != '0'
    ensures NatText(NatValue(s)) == s
  {
    var init := s[..|s| - 1];
    if |s| > 1 {
      TextOfValue(init);
      PositiveText(init);
      assert NatValue(s) / 10 == NatValue(init);
    } else {
      assert init == "";
    }
  }

  lemma {:induction false} NoLeadingZero(n: nat)
    requires n > 0
    ensures NatText(n)[0] != '0'
  {
    if n >= 10 {
      NoLeadingZero(n / 10);
    }
  }

  /** The timeframes are the whole numbers of minutes, written without leading zeros and with an m. */
  lemma TimeframesExactly(timeframe: string)
    ensures TimeframeSeconds(timeframe).Some? ==>
      exists n: nat :: n > 0 && timeframe == NatText(n) + "m" && TimeframeSeconds(timeframe).value == 60 * n
    ensures forall n: nat | n > 0 && timeframe == NatText(n) + "m" :: TimeframeSeconds(timeframe) == Some(60 * n)
  {
    if TimeframeSeconds(timeframe).Some? {
      var digits := timeframe[..|timeframe| - 1];
      assert digits[0] == timeframe[0];
      TextOfValue(digits);
      PositiveText(digits);
      assert timeframe == NatText(NatValue(digits)) + "m";
    }
    forall n: nat | n > 0 && timeframe == NatText(n) + "m" ensures TimeframeSeconds(timeframe) == Some(60 * n) {
      NoLeadingZero(n);
      NatTextValue(n);
      assert timeframe[..|timeframe| - 1] == NatText(n);
    }
  }

  /** The k-th slot boundary from the epoch. */
  function At(k: int, seconds: int): int {
    k * seconds
  }

  /** The starts of the slots asked for, oldest first. */
  function Slots(now: int, seconds: int, next: int, grace: int): seq<int>
    requires seconds > 0
  {
    var periods, graceSeconds := Max(next, 0), Max(grace, 0);
    var base := At(now / seconds, seconds);
    (if graceSeconds > 0 && now - base < graceSeconds then [base - seconds] else [])
    + seq(periods + 1, k requires 0 <= k < periods + 1 => base + At(k, seconds))
  }

  /** A slot boundary that is at most the next periods ahead and whose slot ended less than the grace ago. */
  predicate Wanted(slot: int, now: int, seconds: int, next: int, grace: int)
    requires seconds > 0
  {
    slot % seconds == 0 && slot <= now + At(Max(next, 0), seconds) && slot + seconds > now - Max(grace, 0)
  }

  lemma SmallMultiple(k: int, d: int)
    requires d > 0 && -d < At(k, d) < d
    ensures k == 0
  {
  }

  lemma AtSum(a: int, b: int, d: int)
    ensures At(a + b, d) == At(a, d) + At(b, d) && At(a - b, d) == At(a, d) - At(b, d)
    ensures At(1, d) == d && At(0, d) == 0 && At(-1, d) == -d
  {
  }

  lemma AtSign(a: int, d: int)
    requires d > 0
    ensures a >= 0 <==> At(a, d) >= 0
    ensures a >= 1 <==> At(a, d) >= d
  {
    if a >= 1 {
      assert (a - 1) * d >= 0;
    } else {
      assert (-a) * d >= 0;
    }
    if a < 0 {
      assert (-a - 1) * d >= 0;
    }
  }

  /** Boundaries are ordered as their numbers, even against a time within a slot. */
  lemma AtOrder(a: int, b: int, late: int, d: int)
    requires 0 <= late < d
    ensures a <= b <==> At(a, d) <= At(b, d) + late
    ensures a == b <==> At(a, d) == At(b, d)
  {
    AtSum(b, a, d);
    AtSum(a, b, d);
    AtSign(b - a, d);
    AtSign(a - b, d);
  }

  lemma AtNumber(k: int, d: int)
    requires d > 0
    ensures At(k, d) % d == 0 && At(k, d) / d == k
  {
    var q, r := At(k, d) / d, At(k, d) % d;
    assert At(q, d) + r == At(k, d);
    AtSum(k, q, d);
    SmallMultiple(k - q, d);
  }

  lemma AtOf(slot: int, d: int)
    requires d > 0
    ensures slot == At(slot / d, d) + slot % d
  {
  }

  /** The number of the oldest slot asked for. */
  function Oldest(now: int, seconds: int, grace: int): int
    requires seconds > 0
  {
    now / seconds - if now % seconds < Max(grace, 0) then 1 else 0
  }

  /** One slot per period from the oldest to the last of the next ones, none left out. */
  lemma SlotsAreContiguous(now: int, seconds: int, next: int, grace: int)
    requires seconds > 0
    ensures
      var slots, oldest := Slots(now, seconds, next, grace), Oldest(now, seconds, grace);
      && |slots| == now / seconds + Max(next, 0) - oldest + 1
      && (forall i | 0 <= i < |slots| :: slots[i] == At(oldest + i, seconds))
      && (forall slot :: slot in slots
           <==> slot % seconds == 0 && oldest <= slot / seconds <= now / seconds + Max(next, 0))
  {
    var slots, oldest, base := Slots(now, seconds, next, grace), Oldest(now, seconds, grace), now / seconds;
    AtOf(now, seconds);
    forall i | 0 <= i < |slots|
      ensures slots[i] == At(oldest + i, seconds) && slots[i] % seconds == 0 && slots[i] / seconds == oldest + i
    {
      AtSum(base, oldest + i - base, seconds);
      AtNumber(oldest + i, seconds);
    }
    forall slot | slot % seconds == 0 && oldest <= slot / seconds <= base + Max(next, 0) ensures slot in slots {
      AtOf(slot, seconds);
      assert slots[slot / seconds - oldest] == slot;
    }
  }

  /** A boundary is not too far ahead as its number says, and its slot ended as long ago as its number says. */
  lemma Reach(slot: int, now: int, seconds: int, next: int, grace: int)
    requires seconds > 0 && slot % seconds == 0
    ensures
      var k, late := slot / seconds, now % seconds;
      && (slot <= now + At(Max(next, 0), seconds) <==> k <= now / seconds + Max(next, 0))
      && slot + seconds - (now - grace) == At(k + 1 - now / seconds, seconds) - (late - grace)
  {
    var k, base, late, periods := slot / seconds, now / seconds, now % seconds, Max(next, 0);
    AtOf(slot, seconds);
    AtOf(now, seconds);
    AtSum(base, periods, seconds);
    AtSum(k, 1, seconds);
    AtSum(k + 1, base, seconds);
    AtOrder(k, base + periods, late, seconds);
  }

  /** A boundary i periods after the current one against how late it is in the slot and a grace below one more period.
      */
  lemma WithinGrace(i: int, late: int, grace: int, seconds: int)
    requires 0 <= late < seconds && 0 <= grace
    ensures grace <= late + seconds ==> (At(i, seconds) > late - grace <==> i >= 1 || (i == 0 && late < grace))
    ensures grace < late + seconds ==> (At(i, seconds) >= late - grace <==> i >= 1 || (i == 0 && late <= grace))
  {
    AtSign(i, seconds);
    AtSum(0, 0, seconds);
    if i < 0 {
      AtSum(i, 1, seconds);
      AtSign(-i - 1, seconds);
      AtSum(0, i + 1, seconds);
    }
  }

  lemma OlderSlot(now: int, seconds: int, next: int, grace: int) returns (older: int)
    requires seconds > 0
    ensures older % seconds == 0 && older / seconds == now / seconds - 2
    ensures older <= now + At(Max(next, 0), seconds)
    ensures older + seconds - (now - grace) == grace - seconds - now % seconds
  {
    older := At(now / seconds - 2, seconds);
    AtNumber(now / seconds - 2, seconds);
    Reach(older, now, seconds, next, grace);
    AtSum(0, 0, seconds);
  }

  /** The slots asked for are the wanted ones exactly while the grace reaches back no further than the previous slot. */
  lemma SlotsExactly(now: int, seconds: int, next: int, grace: int)
    requires seconds > 0
    ensures (forall slot :: slot in Slots(now, seconds, next, grace) <==> Wanted(slot, now, seconds, next, grace))
            <==> grace <= now % seconds + seconds
  {
    SlotsAreContiguous(now, seconds, next, grace);
    var g, late := Max(grace, 0), now % seconds;
    if g > late + seconds {
      var older := OlderSlot(now, seconds, next, g);
      assert Wanted(older, now, seconds, next, grace) && older !in Slots(now, seconds, next, grace);
    } else {
      forall slot ensures slot in Slots(now, seconds, next, grace) <==> Wanted(slot, now, seconds, next, grace) {
        if slot % seconds == 0 {
          Reach(slot, now, seconds, next, g);
          WithinGrace(slot / seconds + 1 - now / seconds, late, g, seconds);
        }
      }
    }
  }

  /** At 310 with a grace of 400 seconds the slot that ended at 0 is wanted and not asked for. */
  lemma LongGraceMissesSlot()
    ensures Wanted(-300, 310, 300, 0, 400) && -300 !in Slots(310, 300, 0, 400)
  {
    SlotsAreContiguous(310, 300, 0, 400);
  }

  // ---------- the window filter ----------

  function IsAllowedWindow(
    start: Option<int>, end: Option<int>, timeframe: string, activeOnly: bool, closed: bool, next: int, grace: int,
    now: int): bool
  {
    if !(activeOnly && !closed) || start.None? || end.None? then true
    else
      var seconds := TimeframeSeconds(timeframe);
      var period := if seconds.Some? then seconds.value else 0;
      start.value <= now + At(Max(next, 0), period) && end.value >= now - Max(grace, 0)
  }

  /** What the filter refuses: when only active open markets are wanted, one with both times that starts more than the
      next periods ahead, or that ended longer ago than the grace; an unknown timeframe has no periods. */
  lemma RefusedExactly(start: Option<int>, end: Option<int>, timeframe: string, activeOnly: bool, closed: bool,
                       next: int, grace: int, now: int, minutes: nat)
    requires minutes > 0 ==> timeframe == NatText(minutes) + "m"
    requires minutes == 0 ==> TimeframeSeconds(timeframe).None?
    ensures !IsAllowedWindow(start, end, timeframe, activeOnly, closed, next, grace, now) <==>
      && activeOnly && !closed && start.Some? && end.Some?
      && (start.value > now + (if next > 0 then next * (60 * minutes) else 0)
          || end.value < (if grace > 0 then now - grace else now))
  {
    TimeframesExactly(timeframe);
  }

  predicate SlotAllowed(slot: int, timeframe: string, r: Request)
    requires TimeframeSeconds(timeframe).Some?
  {
    var end := slot + TimeframeSeconds(timeframe).value;
    IsAllowedWindow(Some(slot), Some(end), timeframe, true, false, r.next, r.grace, r.now)
  }

  /** Every slot asked for passes the filter. */
  lemma SlotsAreAllowed(timeframe: string, r: Request, slot: int)
    requires TimeframeSeconds(timeframe).Some?
    requires slot in Slots(r.now, TimeframeSeconds(timeframe).value, r.next, r.grace)
    ensures SlotAllowed(slot, timeframe, r)
  {
    var seconds := TimeframeSeconds(timeframe).value;
    SlotsAreContiguous(r.now, seconds, r.next, r.grace);
    Reach(slot, r.now, seconds, r.next, Max(r.grace, 0));
    var i := slot / seconds + 1 - r.now / seconds;
    AtSign(i, seconds);
    AtSum(0, 0, seconds);
  }

  /** The filter lets no other slot through exactly when none ended just as the grace ran out and the grace falls
      short of the end of the slot before the previous one. */
  lemma OnlySlotsAllowedExactly(timeframe: string, r: Request)
    requires TimeframeSeconds(timeframe).Some?
    ensures
      var seconds, g := TimeframeSeconds(timeframe).value, Max(r.grace, 0);
      (forall slot | slot % seconds == 0 && SlotAllowed(slot, timeframe, r) ::
         slot in Slots(r.now, seconds, r.next, r.grace)) <==>
      (g != r.now % seconds && g < r.now % seconds + seconds)
  {
    var seconds, g := TimeframeSeconds(timeframe).value, Max(r.grace, 0);
    var late, base := r.now % seconds, r.now / seconds;
    SlotsAreContiguous(r.now, seconds, r.next, r.grace);
    if g >= late + seconds {
      var older := OlderSlot(r.now, seconds, r.next, g);
      assert SlotAllowed(older, timeframe, r) && older !in Slots(r.now, seconds, r.next, r.grace);
    } else if g == late {
      var previous := At(base - 1, seconds);
      AtNumber(base - 1, seconds);
      Reach(previous, r.now, seconds, r.next, g);
      AtSum(0, 0, seconds);
      assert SlotAllowed(previous, timeframe, r) && previous !in Slots(r.now, seconds, r.next, r.grace);
    } else {
      forall slot | slot % seconds == 0 && SlotAllowed(slot, timeframe, r)
        ensures slot in Slots(r.now, seconds, r.next, r.grace) {
        Reach(slot, r.now, seconds, r.next, g);
        WithinGrace(slot / seconds + 1 - base, late, g, seconds);
      }
    }
  }

  /** At 310 with a grace of 10 seconds the slot that ended at 300 passes the filter and is not asked for. */
  lemma GraceJustOverAllowsSlot()
    ensures
      var r := Request(310, 0, 10);
      TimeframeSeconds("5m") == Some(300) && SlotAllowed(0, "5m", r) && 0 !in Slots(r.now, 300, r.next, r.grace)
  {
    KnownTimeframes();
    SlotsAreContiguous(310, 300, 0, 10);
  }

  // ---------- printing slugs ----------

  function SlugText(asset: string, timeframe: string, slot: int): string {
    asset + "-updown-" + timeframe + "-" + IntText(slot)
  }

  function SlotTexts(asset: string, timeframe: string, slots: seq<int>): seq<string> {
    seq(|slots|, k requires 0 <= k < |slots| => SlugText(asset, timeframe, slots[k]))
  }

  datatype Request = Request(now: int, next: int, grace: int)

  /** The slugs of a trimmed, lowered pair; none for an unknown timeframe. */
  function PairSlugs(asset: string, timeframe: string, r: Request): seq<string> {
    var seconds := TimeframeSeconds(timeframe);
    if seconds.None? then [] else SlotTexts(asset, timeframe, Slots(r.now, seconds.value, r.next, r.grace))
  }

  function Cleaned(configured: string): string {
    Lower(Strip(configured))
  }

  /** The lists of the elements, one after the other. */
  function Concat(xs: seq<string>, f: string -> seq<string>): seq<string> {
    if xs == [] then [] else Concat(xs[..|xs| - 1], f) + f(xs[|xs| - 1])
  }

  type Printer = (string, string) -> seq<string>

  function ForTimeframe(asset: string, printer: Printer): string -> seq<string> {
    timeframe => printer(asset, Cleaned(timeframe))
  }

  function ForAsset(timeframes: seq<string>, printer: Printer): string -> seq<string> {
    asset => if Cleaned(asset) == "" then [] else Concat(timeframes, ForTimeframe(Cleaned(asset), printer))
  }

  function SlotPrinter(r: Request): Printer {
    (asset, timeframe) => PairSlugs(asset, timeframe, r)
  }

  method ConcatAll(xs: seq<string>, f: string -> seq<string>) returns (all: seq<string>)
    ensures all == Concat(xs, f)
  {
    all := [];
    for i := 0 to |xs|
      invariant all == Concat(xs[..i], f)
    {
      ConcatNext(xs, i, f);
      all := all + f(xs[i]);
    }
    assert xs[..|xs|] == xs;
  }

  method BuildSlugs(assets: seq<string>, timeframes: seq<string>, printer: Printer) returns (slugs: seq<string>)
    ensures slugs == Concat(assets, ForAsset(timeframes, printer))
  {
    slugs := [];
    for i := 0 to |assets|
      invariant slugs == Concat(assets[..i], ForAsset(timeframes, printer))
    {
      ConcatNext(assets, i, ForAsset(timeframes, printer));
      var asset := Cleaned(assets[i]);
      if asset != "" {
        var own := ConcatAll(timeframes, ForTimeframe(asset, printer));
        slugs := slugs + own;
      }
    }
    assert assets[..|assets|] == assets;
  }

  method BuildCurrentSlotSlugs(assets: seq<string>, timeframes: seq<string>, r: Request) returns (slugs: seq<string>)
    ensures forall slug :: slug in slugs <==> exists asset, timeframe ::
      asset in assets && timeframe in timeframes && Cleaned(asset) != "" &&
        SlotOf(slug, Cleaned(asset), Cleaned(timeframe), r)
    ensures slugs == Concat(assets, ForAsset(timeframes, SlotPrinter(r)))
  {
    slugs := BuildSlugs(assets, timeframes, SlotPrinter(r));
    forall slug, asset, timeframe
      ensures slug in SlotPrinter(r)(asset, timeframe) <==> SlotOf(slug, asset, timeframe, r) {
      SlotOfPair(slug, asset, timeframe, r);
    }
    forall slug ensures slug in slugs <==> exists asset, timeframe ::
      asset in assets && timeframe in timeframes && Cleaned(asset) != "" &&
        slug in SlotPrinter(r)(Cleaned(asset), Cleaned(timeframe))
    {
      BuiltExactly(assets, timeframes, SlotPrinter(r), slug);
    }
  }

  lemma ConcatNext(xs: seq<string>, i: nat, f: string -> seq<string>)
    requires i < |xs|
    ensures Concat(xs[..i + 1], f) == Concat(xs[..i], f) + f(xs[i])
  {
    assert xs[..i + 1][..i] == xs[..i];
  }

  lemma {:induction false} ConcatMembers(xs: seq<string>, f: string -> seq<string>, s: string)
    ensures s in Concat(xs, f) <==> exists x :: x in xs && s in f(x)
  {
    if xs != [] {
      ConcatMembers(xs[..|xs| - 1], f, s);
      assert xs == xs[..|xs| - 1] + [xs[|xs| - 1]];
    }
  }

  /** What is built is what is printed for each listed pair. */
  lemma BuiltExactly(assets: seq<string>, timeframes: seq<string>, printer: Printer, slug: string)
    ensures slug in Concat(assets, ForAsset(timeframes, printer)) <==> exists asset, timeframe ::
      asset in assets && timeframe in timeframes && Cleaned(asset) != "" &&
        slug in printer(Cleaned(asset), Cleaned(timeframe))
  {
    ConcatMembers(assets, ForAsset(timeframes, printer), slug);
    forall asset ensures slug in ForAsset(timeframes, printer)(asset) <==>
      Cleaned(asset) != "" && exists timeframe ::
        timeframe in timeframes && slug in printer(Cleaned(asset), Cleaned(timeframe))
    {
      ConcatMembers(timeframes, ForTimeframe(Cleaned(asset), printer), slug);
    }
  }

  /** The slug names a slot of the pair. */
  ghost predicate SlotOf(slug: string, asset: string, timeframe: string, r: Request) {
    && TimeframeSeconds(timeframe).Some?
    && exists slot ::
         && slot in Slots(r.now, TimeframeSeconds(timeframe).value, r.next, r.grace)
         && slug == SlugText(asset, timeframe, slot)
  }

  lemma SlotOfPair(slug: string, asset: string, timeframe: string, r: Request)
    ensures slug in PairSlugs(asset, timeframe, r) <==> SlotOf(slug, asset, timeframe, r)
  {
    if TimeframeSeconds(timeframe).Some? {
      TextsMembers(asset, timeframe, Slots(r.now, TimeframeSeconds(timeframe).value, r.next, r.grace), slug);
    }
  }

  lemma TextsMembers(asset: string, timeframe: string, slots: seq<int>, slug: string)
    ensures slug in SlotTexts(asset, timeframe, slots)
            <==> exists slot :: slot in slots && slug == SlugText(asset, timeframe, slot)
  {
    forall slot | slot in slots && slug == SlugText(asset, timeframe, slot)
      ensures slug in SlotTexts(asset, timeframe, slots) {
      var k :| 0 <= k < |slots| && slots[k] == slot;
      assert SlotTexts(asset, timeframe, slots)[k] == slug;
    }
  }

  // ---------- reading slugs ----------

  /** The fields between hyphens. */
  function Fields(s: string): (parts: seq<string>)
    ensures parts != []
  {
    Split(s, '-')
  }

  predicate LowerAlnum(s: string) {
    s != "" && forall i | 0 <= i < |s| :: IsDigit(s[i]) || 'a' <= s[i] <= 'z'
  }

  predicate MinutesText(s: string) {
    |s| >= 2 && s[|s| - 1] == 'm' && AllDigits(s[..|s| - 1])
  }

  function UpperChar(c: char): char {
    if 'a' <= c <= 'z' then (c as int - 32) as char else c
  }

  function Upper(s: string): (r: string)
    ensures |r| == |s|
    ensures forall k | 0 <= k < |r| :: !('a' <= r[k] <= 'z') && LowerChar(r[k]) == LowerChar(s[k])
  {
    seq(|s|, k requires 0 <= k < |s| => UpperChar(s[k]))
  }

  /** The pattern asset-updown-minutes-digits; no field can hold a hyphen, and a final newline is ignored. */
  function MatchCryptoUpdown(slug: string, assets: seq<string>, timeframes: seq<string>): Option<(string, string)> {
    var parts := Fields(Lower(slug));
    if |parts| != 4 then None
    else
      var last := parts[3];
      var digits := if last != "" && last[|last| - 1] == '\n' then last[..|last| - 1] else last;
      if LowerAlnum(parts[0]) && parts[1] == "updown" && MinutesText(parts[2]) && digits != "" && AllDigits(digits)
         && (exists a :: a in assets && Upper(a) == Upper(parts[0])) && parts[2] in timeframes
      then Some((Upper(parts[0]), parts[2])) else None
  }

  function SlugEpoch(slug: string): Option<int> {
    var parts := Fields(slug);
    ReadInt(parts[|parts| - 1])
  }

  function WindowSeconds(timeframe: string): Option<int> {
    if timeframe == "5m" then Some(300) else if timeframe == "15m" then Some(900) else None
  }

  function WindowForMarket(start: Option<int>, end: Option<int>, timeframe: string, slug: string): Option<(int, int)> {
    if start.Some? && end.Some? then Some((start.value, end.value))
    else if WindowSeconds(timeframe).None? || SlugEpoch(slug).None? then None
    else Some((SlugEpoch(slug).value, SlugEpoch(slug).value + WindowSeconds(timeframe).value))
  }

  lemma IntFields(n: int)
    ensures Fields(IntText(n)) == if n < 0 then ["", NatText(-n)] else [NatText(n)]
  {
    if n < 0 {
      OnePart(NatText(-n), '-');
      assert IntText(n)[1..] == NatText(-n);
    } else {
      OnePart(NatText(n), '-');
    }
  }

  lemma TimeframeText(t: string)
    requires TimeframeSeconds(t).Some?
    ensures '-' !in t && MinutesText(t) && Lower(t) == t
  {
    assert forall i | 0 <= i < |t| - 1 :: t[i] == t[..|t| - 1][i];
  }

  lemma SlugFields(asset: string, timeframe: string, slot: int)
    requires '-' !in timeframe
    ensures Fields(SlugText(asset, timeframe, slot)) == Fields(asset) + ["updown", timeframe] + Fields(IntText(slot))
  {
    TextFields(asset, timeframe, IntText(slot));
  }

  lemma TextFields(asset: string, timeframe: string, number: string)
    requires '-' !in timeframe
    ensures Fields(asset + "-updown-" + timeframe + "-" + number) ==
            Fields(asset) + ["updown", timeframe] + Fields(number)
  {
    OnePart("updown", '-');
    OnePart(timeframe, '-');
    FourParts(asset, "updown", timeframe, number);
    SlugTextGrouped(asset, timeframe, number);
  }

  /** A newline after the slug ends up in its last field. */
  lemma NewlineFields(asset: string, timeframe: string, slot: int)
    requires '-' !in timeframe
    ensures Fields(SlugText(asset, timeframe, slot) + "\n") ==
            Fields(asset) + ["updown", timeframe] +
              (if slot < 0 then ["", NatText(-slot) + "\n"] else [NatText(slot) + "\n"])
  {
    var number := IntText(slot) + "\n";
    assert SlugText(asset, timeframe, slot) + "\n" == asset + "-updown-" + timeframe + "-" + number;
    TextFields(asset, timeframe, number);
    if slot < 0 {
      OnePart(NatText(-slot) + "\n", '-');
      assert number[1..] == NatText(-slot) + "\n";
    } else {
      OnePart(number, '-');
    }
  }

  lemma SlugTextGrouped(a: string, t: string, n: string)
    ensures a + "-updown-" + t + "-" + n == a + "-" + ("updown" + "-" + (t + "-" + n))
  {
    var rest := t + "-" + n;
    assert "-updown-" == "-" + "updown" + "-";
    assert a + "-updown-" + t + "-" + n == a + "-updown-" + rest;
    assert a + "-updown-" + rest == a + "-" + ("updown" + "-" + rest);
  }

  lemma FourParts(a: string, b: string, c: string, d: string)
    requires Fields(b) == [b] && Fields(c) == [c]
    ensures Fields(a + "-" + (b + "-" + (c + "-" + d))) == Fields(a) + [b, c] + Fields(d)
  {
    SplitJoin(a, '-', b + "-" + (c + "-" + d));
    SplitJoin(b, '-', c + "-" + d);
    SplitJoin(c, '-', d);
    Grouped(Fields(a), b, c, Fields(d));
  }

  lemma Grouped(xs: seq<string>, b: string, c: string, ys: seq<string>)
    ensures xs + ([b] + ([c] + ys)) == xs + [b, c] + ys
  {
  }

  lemma LowerSlug(asset: string, timeframe: string, slot: int)
    requires Lower(asset) == asset && Lower(timeframe) == timeframe
    ensures Lower(SlugText(asset, timeframe, slot)) == SlugText(asset, timeframe, slot)
  {
    var slug, number := SlugText(asset, timeframe, slot), IntText(slot);
    assert forall i | 0 <= i < |number| :: LowerChar(number[i]) == number[i];
    forall i | 0 <= i < |slug| ensures LowerChar(slug[i]) == slug[i] {
      var a, t := |asset|, |asset| + 8 + |timeframe|;
      if i < a {
        assert slug[i] == Lower(asset)[i];
      } else if i < a + 8 {
        assert slug[i] == "-updown-"[i - a];
      } else if i < t {
        assert slug[i] == Lower(timeframe)[i - a - 8];
      } else if i > t {
        assert slug[i] == number[i - t - 1];
      }
    }
  }

  // ---------- what matches ----------

  predicate OnlyDigits(s: string) {
    s != "" && forall c | c in s :: '0' <= c <= '9'
  }

  predicate OnlyLowerAlnum(s: string) {
    s != "" && forall c | c in s :: '0' <= c <= '9' || 'a' <= c <= 'z'
  }

  /** The slug, whatever its case, is an asset, the word updown, a number of minutes and a number, between hyphens and
      perhaps before a newline. */
  predicate SlugIs(slug: string, asset: string, minutes: string, number: string) {
    && OnlyLowerAlnum(asset) && OnlyDigits(minutes) && OnlyDigits(number)
    && var text := asset + "-updown-" + (minutes + "m") + "-" + number;
       Lower(slug) == text || Lower(slug) == text + "\n"
  }

  lemma PlainlySo(asset: string, minutes: string, number: string)
    requires OnlyLowerAlnum(asset) && OnlyDigits(minutes) && OnlyDigits(number)
    ensures LowerAlnum(asset) && MinutesText(minutes + "m") && AllDigits(number)
    ensures '-' !in asset && '-' !in minutes + "m" && '-' !in number && '-' !in number + "\n"
  {
    assert (minutes + "m")[..|minutes|] == minutes;
    assert forall i | 0 <= i < |asset| :: asset[i] in asset;
    assert forall i | 0 <= i < |minutes| :: minutes[i] in minutes;
    assert forall i | 0 <= i < |number| :: number[i] in number;
  }

  lemma SlugHasFields(slug: string, asset: string, minutes: string, number: string)
    requires SlugIs(slug, asset, minutes, number)
    ensures
      var parts := Fields(Lower(slug));
      parts == [asset, "updown", minutes + "m", number] || parts == [asset, "updown", minutes + "m", number + "\n"]
  {
    PlainlySo(asset, minutes, number);
    var text := asset + "-updown-" + (minutes + "m") + "-" + number;
    OnePart(asset, '-');
    OnePart(number, '-');
    OnePart(number + "\n", '-');
    TextFields(asset, minutes + "m", number);
    TextFields(asset, minutes + "m", number + "\n");
    assert text + "\n" == asset + "-updown-" + (minutes + "m") + "-" + (number + "\n");
  }

  lemma FourJoined(a: string, b: string, c: string, d: string)
    ensures Join([a, b, c, d], '-') == a + "-" + (b + "-" + (c + "-" + d))
  {
    assert [a, b, c, d][1..] == [b, c, d] && [b, c, d][1..] == [c, d] && [c, d][1..] == [d];
    assert Join([c, d], '-') == c + "-" + d;
    assert Join([b, c, d], '-') == b + "-" + (c + "-" + d);
  }

  lemma SlugOfFields(slug: string, parts: seq<string>, number: string)
    requires parts == Fields(Lower(slug)) && |parts| == 4 && parts[1] == "updown" && number != "" && AllDigits(number)
    requires parts[3] == number || parts[3] == number + "\n"
    requires LowerAlnum(parts[0]) && MinutesText(parts[2])
    ensures SlugIs(slug, parts[0], parts[2][..|parts[2]| - 1], number)
  {
    var a, minutes := parts[0], parts[2][..|parts[2]| - 1];
    SplitJoins(Lower(slug), '-');
    assert parts == [a, "updown", parts[2], parts[3]];
    FourJoined(a, "updown", parts[2], parts[3]);
    SlugTextGrouped(a, parts[2], parts[3]);
    assert parts[2] == minutes + "m";
    assert a + "-updown-" + parts[2] + "-" + (number + "\n") == a + "-updown-" + parts[2] + "-" + number + "\n";
  }

  /** A slug matches exactly if it has that form and the configuration lists its asset, in whatever case, and its
      timeframe as it stands. */
  lemma MatchExactly(slug: string, assets: seq<string>, timeframes: seq<string>, asset: string, timeframe: string)
    ensures MatchCryptoUpdown(slug, assets, timeframes) == Some((asset, timeframe)) <==>
      && timeframe in timeframes && (exists configured :: configured in assets && Upper(configured) == asset)
      && exists a, minutes, number ::
           SlugIs(slug, a, minutes, number) && Upper(a) == asset && timeframe == minutes + "m"
  {
    if MatchCryptoUpdown(slug, assets, timeframes) == Some((asset, timeframe)) {
      var a, minutes, number := MatchedForm(slug, assets, timeframes, asset, timeframe);
    }
    if a, minutes, number :| SlugIs(slug, a, minutes, number) && Upper(a) == asset && timeframe == minutes + "m" {
      FormMatches(slug, assets, timeframes, a, minutes, number);
    }
  }

  lemma MatchedForm(slug: string, assets: seq<string>, timeframes: seq<string>, asset: string, timeframe: string)
    returns (a: string, minutes: string, number: string)
    requires MatchCryptoUpdown(slug, assets, timeframes) == Some((asset, timeframe))
    ensures SlugIs(slug, a, minutes, number) && Upper(a) == asset && timeframe == minutes + "m"
    ensures timeframe in timeframes && exists configured :: configured in assets && Upper(configured) == asset
  {
    var parts := Fields(Lower(slug));
    var last := parts[3];
    number := if last != "" && last[|last| - 1] == '\n' then last[..|last| - 1] else last;
    a, minutes := parts[0], parts[2][..|parts[2]| - 1];
    SlugOfFields(slug, parts, number);
    assert parts[2] == minutes + "m";
  }

  lemma FormMatches(slug: string, assets: seq<string>, timeframes: seq<string>, a: string, minutes: string,
                    number: string)
    requires SlugIs(slug, a, minutes, number)
    ensures MatchCryptoUpdown(slug, assets, timeframes) ==
      if (exists configured :: configured in assets && Upper(configured) == Upper(a)) && minutes + "m" in timeframes
      then Some((Upper(a), minutes + "m")) else None
  {
    SlugHasFields(slug, a, minutes, number);
    PlainlySo(a, minutes, number);
    assert (number + "\n")[..|number|] == number && number[|number| - 1] in number;
  }

  /** A slug printed for a configured pair, in whatever case it arrives and with or without a newline after it, matches
      back to that pair exactly when the asset is plain, the slot is not before the epoch, and the configuration lists
      the pair as it was printed (the printer trims and lowers what it lists, the matcher does not trim assets and takes
      timeframes as they are). */
  lemma MatchPrintedExactly(slug: string, asset: string, timeframe: string, slot: int, assets: seq<string>,
                            timeframes: seq<string>)
    requires Lower(asset) == asset && TimeframeSeconds(timeframe).Some?
    requires Lower(slug) == SlugText(asset, timeframe, slot) || Lower(slug) == SlugText(asset, timeframe, slot) + "\n"
    ensures MatchCryptoUpdown(slug, assets, timeframes) ==
      if LowerAlnum(asset) && slot >= 0 && (exists a :: a in assets && Upper(a) == Upper(asset)) &&
        timeframe in timeframes
      then Some((Upper(asset), timeframe)) else None
  {
    TimeframeText(timeframe);
    var number := NatText(if slot < 0 then -slot else slot);
    SlugFields(asset, timeframe, slot);
    NewlineFields(asset, timeframe, slot);
    IntFields(slot);
    OnePart(asset, '-');
    assert IsDigit(number[|number| - 1]);
    assert (number + "\n")[..|number|] == number;
    if LowerAlnum(asset) {
      assert '-' !in asset;
    }
  }

  /** A market without its own times gets its window from the slug: the slot itself, exactly when the timeframe is one
      of the two known ones and the slot is not before the epoch. */
  lemma WindowExactly(asset: string, timeframe: string, slot: int)
    requires TimeframeSeconds(timeframe).Some?
    ensures SlugEpoch(SlugText(asset, timeframe, slot)) == Some(if slot < 0 then -slot else slot)
    ensures WindowForMarket(None, None, timeframe, SlugText(asset, timeframe, slot)) ==
            Some((slot, slot + TimeframeSeconds(timeframe).value))
            <==> slot >= 0 && (timeframe == "5m" || timeframe == "15m")
  {
    EpochExactly(asset, timeframe, slot);
    KnownTimeframes();
  }

  /** Both of a market's own times together are its window, whatever its slug says; one alone is not looked at; and
      without them only the two known timeframes have a window. */
  lemma OwnTimesFirst(start: int, end: int, timeframe: string, slug: string)
    ensures WindowForMarket(Some(start), Some(end), timeframe, slug) == Some((start, end))
    ensures WindowForMarket(Some(start), None, timeframe, slug) == WindowForMarket(None, None, timeframe, slug)
    ensures WindowForMarket(None, Some(end), timeframe, slug) == WindowForMarket(None, None, timeframe, slug)
    ensures timeframe != "5m" && timeframe != "15m" ==> WindowForMarket(None, None, timeframe, slug) == None
  {
  }

  /** Spaces around, a plus sign and single underscores inside are read over; two underscores are not. */
  lemma ReadIntSamples()
    ensures ReadInt(" +1_0 ") == Some(10) && ReadInt("1__0") == None && ReadInt("_1") == None && ReadInt("") == None
  {
    SpacedSample();
    GroupedSample();
    assert Strip("1__0") == "1__0" && Strip("_1") == "_1";
    assert "1__0"[1..] == "__0" && DoubleUnderscore("__0");
  }

  lemma SpacedSample()
    ensures Strip(" +1_0 ") == "+1_0" && "+1_0"[1..] == "1_0"
  {
    assert " +1_0 "[1..] == "+1_0 " && "+1_0 "[..4] == "+1_0";
  }

  lemma GroupedSample()
    ensures ReadUnsigned("1_0") == Some(10)
  {
    assert "1_0"[..2] == "1_" && "1_"[..1] == "1" && "1"[..0] == "";
    assert WithoutUnderscores("1") == "1" && WithoutUnderscores("1_") == "1" && WithoutUnderscores("1_0") == "10";
    assert "1_0"[1..] == "_0" && "_0"[1..] == "0";
    assert "10"[..1] == "1" && NatValue("1") == 1 && NatValue("10") == 10;
  }

  lemma EpochExactly(asset: string, timeframe: string, slot: int)
    requires TimeframeSeconds(timeframe).Some?
    ensures SlugEpoch(SlugText(asset, timeframe, slot)) == Some(if slot < 0 then -slot else slot)
  {
    TimeframeText(timeframe);
    SlugFields(asset, timeframe, slot);
    IntFields(slot);
    var parts, number := Fields(SlugText(asset, timeframe, slot)), Fields(IntText(slot));
    assert parts[|parts| - 1] == number[|number| - 1];
    ReadIntText(if slot < 0 then -slot else slot);
  }

  /** The slot that starts 300 seconds before the epoch is read back as the one that starts 300 seconds after it. */
  lemma SlotBeforeEpochIsMirrored()
    ensures WindowForMarket(None, None, "5m", SlugText("btc", "5m", -300)) == Some((300, 600))
  {
    KnownTimeframes();
    EpochExactly("btc", "5m", -300);
  }

  /** With the timeframe configured as 5M the slot at 0 is asked for, and its slug is not matched. */
  lemma UpperTimeframeIsNeverMatched()
    ensures
      var slug := SlugText("btc", "5m", 0);
      && slug in Concat(["BTC"], ForAsset(["5M"], SlotPrinter(Request(0, 0, 0))))
      && MatchCryptoUpdown(slug, ["BTC"], ["5M"]) == None
  {
    KnownTimeframes();
    CleanedSamples();
    var r, slug := Request(0, 0, 0), SlugText("btc", "5m", 0);
    LowerSlug("btc", "5m", 0);
    MatchPrintedExactly(slug, "btc", "5m", 0, ["BTC"], ["5M"]);
    assert "5m" !in ["5M"] by {
      assert "5m"[1] != "5M"[1];
    }
    SlotsAreContiguous(0, 300, 0, 0);
    assert 0 in Slots(0, 300, 0, 0);
    SlotOfPair(slug, "btc", "5m", r);
    assert SlotOf(slug, "btc", "5m", r);
    assert "BTC" in ["BTC"] && "5M" in ["5M"];
    BuiltExactly(["BTC"], ["5M"], SlotPrinter(r), slug);
  }

  lemma CleanedSamples()
    ensures Cleaned("BTC") == "btc" && Cleaned("5M") == "5m" && Lower("btc") == "btc"
  {
    assert Strip("BTC") == "BTC" && Strip("5M") == "5M";
  }

  lemma KnownTimeframes()
    ensures TimeframeSeconds("5m") == Some(300) && TimeframeSeconds("15m") == Some(900)
  {
    assert "5m"[..1] == "5" && "15m"[..2] == "15" && "15"[..1] == "1" && "5"[..0] == "" && "1"[..0] == "";
    assert NatValue("5") == 5 && NatValue("1") == 1 && NatValue("15") == 15;
  }

  /** Different slots of plain assets never share a slug. */
  lemma SlugsAreDistinct(asset: string, timeframe: string, slot: int, asset': string, timeframe': string, slot': int)
    requires LowerAlnum(asset) && LowerAlnum(asset') && TimeframeSeconds(timeframe).Some?
    requires TimeframeSeconds(timeframe').Some?
    ensures SlugText(asset, timeframe, slot) == SlugText(asset', timeframe', slot') <==>
            asset == asset' && timeframe == timeframe' && slot == slot'
  {
    if SlugText(asset, timeframe, slot) == SlugText(asset', timeframe', slot') {
      PlainFields(asset, timeframe, slot);
      PlainFields(asset', timeframe', slot');
      NatTextValue(if slot < 0 then -slot else slot);
      NatTextValue(if slot' < 0 then -slot' else slot');
    }
  }

  lemma PlainFields(asset: string, timeframe: string, slot: int)
    requires LowerAlnum(asset) && TimeframeSeconds(timeframe).Some?
    ensures
      var parts := Fields(SlugText(asset, timeframe, slot));
      && |parts| == (if slot < 0 then 5 else 4) && parts[0] == asset && parts[2] == timeframe
      && parts[|parts| - 1] == NatText(if slot < 0 then -slot else slot)
  {
    TimeframeText(timeframe);
    SlugFields(asset, timeframe, slot);
    IntFields(slot);
    assert '-' !in asset;
    OnePart(asset, '-');
  }
}

/** Batch arbitration: decisions that carry a pair id are regrouped, and only whole pairs go on to the gate. */
module DecisionPolicy {
  import opened Options
  import opened Sides

  /** A decision together with its market view; `body` stands for everything arbitration does not look at. */
  datatype Item = Item(strategy: string, side: Side, pairId: Option<string>, body: string)
  {
    predicate Paired() {
      pairId.Some? && pairId.value != ""
    }
  }

  datatype Verdict = Accepted | Rejected(code: string)

  datatype Reason = ManualDisabled | MalformedPair | IncompletePair | ByGate(code: string)

  datatype Rejection = Rejection(item: Item, reason: Reason)

  function ItemsOf(rs: seq<Rejection>): seq<Item> {
    seq(|rs|, k requires 0 <= k < |rs| => rs[k].item)
  }

  // ---------- the reference: where each decision of a batch belongs ----------

  predicate InPair(disabled: set<string>, x: Item, pairId: string) {
    x.strategy !in disabled && x.pairId == Some(pairId)
  }

  /** How many enabled legs of one side the batch holds for a pair. */
  function Legs(items: seq<Item>, disabled: set<string>, pairId: string, side: Side): nat {
    if items == [] then 0
    else
      var first := if InPair(disabled, items[0], pairId) && items[0].side == side then 1 else 0;
      first + Legs(items[1..], disabled, pairId, side)
  }

  /** An enabled decision reaches the gate on its own, or as one leg of a pair of exactly one UP and one DOWN. */
  predicate ReachesGate(items: seq<Item>, disabled: set<string>, x: Item) {
    && x.strategy !in disabled
    && (x.Paired() ==>
          Legs(items, disabled, x.pairId.value, Up) == 1 && Legs(items, disabled, x.pairId.value, Down) == 1)
  }

  function ReasonFor(items: seq<Item>, disabled: set<string>, x: Item): Reason {
    if x.strategy in disabled then ManualDisabled
    else if !x.Paired() then IncompletePair
    else
      var p := x.pairId.value;
      if Legs(items, disabled, p, Up) + Legs(items, disabled, p, Down) >= 2 then MalformedPair else IncompletePair
  }

  // ---------- groups ----------

  function Filter(items: seq<Item>, p: Item -> bool): seq<Item> {
    if items == [] then []
    else
      var rest := Filter(items[..|items| - 1], p);
      if p(items[|items| - 1]) then rest + [items[|items| - 1]] else rest
  }

  lemma {:induction false} FilterCounts(items: seq<Item>, p: Item -> bool, x: Item)
    ensures multiset(Filter(items, p))[x] == if p(x) then multiset(items)[x] else 0
  {
    if items != [] {
      assert items == items[..|items| - 1] + [items[|items| - 1]];
      FilterCounts(items[..|items| - 1], p, x);
    }
  }

  function MemberOf(disabled: set<string>, pairId: string): Item -> bool {
    x => InPair(disabled, x, pairId)
  }

  function IsDisabled(disabled: set<string>): Item -> bool {
    (x: Item) => x.strategy in disabled
  }

  function IsUnpaired(disabled: set<string>): Item -> bool {
    (x: Item) => x.strategy !in disabled && !x.Paired()
  }

  function Group(items: seq<Item>, disabled: set<string>, pairId: string): seq<Item> {
    Filter(items, MemberOf(disabled, pairId))
  }

  lemma {:induction false} LegsGrow(items: seq<Item>, disabled: set<string>, pairId: string, side: Side)
    requires items != []
    ensures Legs(items, disabled, pairId, side) ==
            Legs(items[..|items| - 1], disabled, pairId, side)
            + (if InPair(disabled, items[|items| - 1], pairId) && items[|items| - 1].side == side then 1 else 0)
  {
    if |items| > 1 {
      LegsGrow(items[1..], disabled, pairId, side);
      assert items[1..][..|items| - 2] == items[..|items| - 1][1..];
    }
  }

  lemma {:induction false} GroupLegs(items: seq<Item>, disabled: set<string>, pairId: string)
    ensures forall side ::
              Legs(Group(items, disabled, pairId), disabled, pairId, side) == Legs(items, disabled, pairId, side)
    ensures |Group(items, disabled, pairId)| == Legs(items, disabled, pairId, Up) + Legs(items, disabled, pairId, Down)
    ensures forall x | x in Group(items, disabled, pairId) :: InPair(disabled, x, pairId)
  {
    if items != [] {
      var init, last := items[..|items| - 1], items[|items| - 1];
      var g := Group(items, disabled, pairId);
      GroupLegs(init, disabled, pairId);
      assert g == Group(init, disabled, pairId) + (if InPair(disabled, last, pairId) then [last] else []);
      forall side ensures Legs(g, disabled, pairId, side) == Legs(items, disabled, pairId, side) {
        LegsGrow(items, disabled, pairId, side);
        if InPair(disabled, last, pairId) {
          assert g[..|g| - 1] == Group(init, disabled, pairId);
          LegsGrow(g, disabled, pairId, side);
        }
      }
      LegsGrow(items, disabled, pairId, Up);
      LegsGrow(items, disabled, pairId, Down);
    }
  }

  predicate IsWholePair(members: seq<Item>) {
    |members| == 2 && members[0].side != members[1].side
  }

  /** The length and the two sides decide what the leg counts say. */
  lemma WholePairExactly(items: seq<Item>, disabled: set<string>, pairId: string)
    ensures
      var g := Group(items, disabled, pairId);
      IsWholePair(g) <==> Legs(items, disabled, pairId, Up) == 1 && Legs(items, disabled, pairId, Down) == 1
  {
    var g := Group(items, disabled, pairId);
    GroupLegs(items, disabled, pairId);
    if |g| == 2 {
      assert g == [g[0], g[1]] && g[..1] == [g[0]] && g[..1][..0] == [];
      assert g[0] in g && g[1] in g;
      forall side
        ensures Legs(g, disabled, pairId, side) ==
                (if g[0].side == side then 1 else 0) + (if g[1].side == side then 1 else 0)
      {
        LegsGrow(g, disabled, pairId, side);
        LegsGrow(g[..1], disabled, pairId, side);
      }
    }
  }

  // ---------- the policy ----------

  /** The decision's pair is among those not yet resolved. */
  predicate Waits(disabled: set<string>, open: set<string>, x: Item) {
    x.strategy !in disabled && x.Paired() && x.pairId.value in open
  }

  ghost predicate Passed(items: seq<Item>, disabled: set<string>, open: set<string>, gated: seq<Item>) {
    forall x :: multiset(gated)[x] ==
      if ReachesGate(items, disabled, x) && !Waits(disabled, open, x) then multiset(items)[x] else 0
  }

  ghost predicate Refused(items: seq<Item>, disabled: set<string>, open: set<string>, refused: seq<Item>) {
    forall x :: multiset(refused)[x] ==
      if !ReachesGate(items, disabled, x) && !Waits(disabled, open, x) then multiset(items)[x] else 0
  }

  ghost predicate Explained(items: seq<Item>, disabled: set<string>, rs: seq<Rejection>) {
    forall k | 0 <= k < |rs| :: rs[k].reason == ReasonFor(items, disabled, rs[k].item)
  }

  /** What arbitration must have done with a batch once the pairs in `open` are set aside: every decision is on
      exactly one side, as often as it was submitted, and refused for the right reason. */
  ghost predicate Sorted(items: seq<Item>, disabled: set<string>, open: set<string>, gated: seq<Item>,
                         rs: seq<Rejection>) {
    && Passed(items, disabled, open, gated)
    && Refused(items, disabled, open, ItemsOf(rs))
    && Explained(items, disabled, rs)
  }

  lemma RegroupSorts(items: seq<Item>, disabled: set<string>, open: set<string>, gated: seq<Item>, refused: seq<Item>)
    requires gated == Filter(items, IsUnpaired(disabled)) && refused == Filter(items, IsDisabled(disabled))
    requires forall p :: p in open <==> p != "" && Group(items, disabled, p) != []
    ensures Passed(items, disabled, open, gated) && Refused(items, disabled, open, refused)
  {
    forall x: Item
      ensures multiset(gated)[x] ==
              if ReachesGate(items, disabled, x) && !Waits(disabled, open, x) then multiset(items)[x] else 0
      ensures multiset(refused)[x] ==
              if !ReachesGate(items, disabled, x) && !Waits(disabled, open, x) then multiset(items)[x] else 0
    {
      FilterCounts(items, IsUnpaired(disabled), x);
      FilterCounts(items, IsDisabled(disabled), x);
      if x.strategy !in disabled && x.Paired() && x.pairId.value !in open {
        var p := x.pairId.value;
        FilterCounts(items, MemberOf(disabled, p), x);
        assert Group(items, disabled, p) == [];
        assert multiset(items)[x] == 0;
      }
    }
  }

  lemma WholePairPasses(items: seq<Item>, disabled: set<string>, open: set<string>, p: string, gated: seq<Item>,
                        refused: seq<Item>)
    requires p in open && p != "" && IsWholePair(Group(items, disabled, p))
    requires Passed(items, disabled, open, gated) && Refused(items, disabled, open, refused)
    ensures Passed(items, disabled, open - {p}, gated + Group(items, disabled, p))
    ensures Refused(items, disabled, open - {p}, refused)
  {
    var g := Group(items, disabled, p);
    WholePairExactly(items, disabled, p);
    forall x: Item
      ensures multiset(gated + g)[x] ==
              if ReachesGate(items, disabled, x) && !Waits(disabled, open - {p}, x) then multiset(items)[x] else 0
      ensures multiset(refused)[x] ==
              if !ReachesGate(items, disabled, x) && !Waits(disabled, open - {p}, x) then multiset(items)[x] else 0
    {
      FilterCounts(items, MemberOf(disabled, p), x);
    }
  }

  lemma OtherGroupIsRefused(items: seq<Item>, disabled: set<string>, open: set<string>, p: string, gated: seq<Item>,
                            refused: seq<Item>)
    requires p in open && p != "" && !IsWholePair(Group(items, disabled, p))
    requires Passed(items, disabled, open, gated) && Refused(items, disabled, open, refused)
    ensures Passed(items, disabled, open - {p}, gated)
    ensures Refused(items, disabled, open - {p}, refused + Group(items, disabled, p))
  {
    var g := Group(items, disabled, p);
    WholePairExactly(items, disabled, p);
    forall x: Item
      ensures multiset(gated)[x] ==
              if ReachesGate(items, disabled, x) && !Waits(disabled, open - {p}, x) then multiset(items)[x] else 0
      ensures multiset(refused + g)[x] ==
              if !ReachesGate(items, disabled, x) && !Waits(disabled, open - {p}, x) then multiset(items)[x] else 0
    {
      FilterCounts(items, MemberOf(disabled, p), x);
    }
  }

  lemma ItemsOfConcat(a: seq<Rejection>, b: seq<Rejection>)
    ensures ItemsOf(a + b) == ItemsOf(a) + ItemsOf(b)
  {
  }

  // ---------- what a batch comes to ----------

  predicate Approved(items: seq<Item>, disabled: set<string>, gate: Item -> Verdict, x: Item) {
    ReachesGate(items, disabled, x) && gate(x).Accepted?
  }

  function FinalReason(items: seq<Item>, disabled: set<string>, gate: Item -> Verdict, x: Item): Reason {
    if ReachesGate(items, disabled, x) && gate(x).Rejected? then ByGate(gate(x).code) else ReasonFor(items, disabled, x)
  }

  /** Nothing is lost or duplicated, exactly the approved come out approved, and every refusal carries its reason. */
  ghost predicate Arbitrated(items: seq<Item>, disabled: set<string>, gate: Item -> Verdict, approvals: seq<Item>,
                             rs: seq<Rejection>) {
    && multiset(approvals) + multiset(ItemsOf(rs)) == multiset(items)
    && (forall x :: multiset(approvals)[x] == if Approved(items, disabled, gate, x) then multiset(items)[x] else 0)
    && (forall k | 0 <= k < |rs| :: rs[k].reason == FinalReason(items, disabled, gate, rs[k].item))
  }

  /** Where the enabled legs of one side of a pair stand in the batch. */
  ghost function LegsAt(items: seq<Item>, disabled: set<string>, pairId: string, side: Side): set<nat> {
    set k: nat | k < |items| && items[k].strategy !in disabled && items[k].pairId == Some(pairId)
                 && items[k].side == side
  }

  lemma {:induction false} LegsCount(items: seq<Item>, disabled: set<string>, pairId: string, side: Side)
    ensures Legs(items, disabled, pairId, side) == |LegsAt(items, disabled, pairId, side)|
  {
    if items != [] {
      var n := |items| - 1;
      LegsCount(items[..n], disabled, pairId, side);
      LegsGrow(items, disabled, pairId, side);
      var before, now := LegsAt(items[..n], disabled, pairId, side), LegsAt(items, disabled, pairId, side);
      if InPair(disabled, items[n], pairId) && items[n].side == side {
        assert now == before + {n};
      } else {
        assert now == before;
      }
    }
  }

  /** In terms of the batch alone: who is approved, and why any other is not. */
  lemma OutcomeExactly(items: seq<Item>, disabled: set<string>, gate: Item -> Verdict, x: Item)
    ensures
      var p := if x.pairId.Some? then x.pairId.value else "";
      var up, down := |LegsAt(items, disabled, p, Up)|, |LegsAt(items, disabled, p, Down)|;
      var whole := up == 1 && down == 1;
      && (Approved(items, disabled, gate, x)
          <==> x.strategy !in disabled && (p == "" || whole) && gate(x) == Accepted)
      && (x.strategy in disabled ==> FinalReason(items, disabled, gate, x) == ManualDisabled)
      && (x.strategy !in disabled && p != "" && !whole ==>
            FinalReason(items, disabled, gate, x) == if up + down >= 2 then MalformedPair else IncompletePair)
      && (x.strategy !in disabled && (p == "" || whole) && gate(x).Rejected? ==>
            FinalReason(items, disabled, gate, x) == ByGate(gate(x).code))
  {
    var p := if x.pairId.Some? then x.pairId.value else "";
    LegsCount(items, disabled, p, Up);
    LegsCount(items, disabled, p, Down);
  }

  /** A submitted decision is among the approvals, or among the rejections with its reason, and not in both. */
  lemma Fate(items: seq<Item>, disabled: set<string>, gate: Item -> Verdict, approvals: seq<Item>, rs: seq<Rejection>,
             x: Item)
    requires Arbitrated(items, disabled, gate, approvals, rs) && x in items
    ensures x in approvals <==> Approved(items, disabled, gate, x)
    ensures x in approvals <==> Rejection(x, FinalReason(items, disabled, gate, x)) !in rs
    ensures forall r | r in rs && r.item == x :: r.reason == FinalReason(items, disabled, gate, x)
  {
    assert multiset(items)[x] > 0;
    assert multiset(approvals)[x] + multiset(ItemsOf(rs))[x] == multiset(items)[x];
    if x in approvals {
      assert multiset(approvals)[x] > 0;
      forall r | r in rs ensures r.item != x {
        var k :| 0 <= k < |rs| && rs[k] == r;
        assert ItemsOf(rs)[k] == r.item && r.item in ItemsOf(rs);
        assert multiset(ItemsOf(rs))[r.item] > 0;
      }
    } else {
      assert x in ItemsOf(rs);
      var k :| 0 <= k < |rs| && ItemsOf(rs)[k] == x;
      assert rs[k] == Rejection(x, FinalReason(items, disabled, gate, x));
    }
  }

  predicate PairReason(reason: Reason) {
    reason == MalformedPair || reason == IncompletePair
  }

  /** Of two enabled decisions with one pair id either both are refused as a pair or neither is. */
  lemma BothLegsOrNeither(items: seq<Item>, disabled: set<string>, gate: Item -> Verdict, approvals: seq<Item>,
                          rs: seq<Rejection>,
                          x: Item, y: Item)
    requires Arbitrated(items, disabled, gate, approvals, rs) && x in items && y in items
    requires x.Paired() && x.pairId == y.pairId && x.strategy !in disabled && y.strategy !in disabled
    ensures (exists r | r in rs && r.item == x :: PairReason(r.reason))
            <==> (exists r | r in rs && r.item == y :: PairReason(r.reason))
  {
    RefusedAsPair(items, disabled, gate, approvals, rs, x);
    RefusedAsPair(items, disabled, gate, approvals, rs, y);
  }

  lemma RefusedAsPair(items: seq<Item>, disabled: set<string>, gate: Item -> Verdict, approvals: seq<Item>,
                      rs: seq<Rejection>, x: Item)
    requires Arbitrated(items, disabled, gate, approvals, rs) && x in items && x.Paired() && x.strategy !in disabled
    ensures (exists r | r in rs && r.item == x :: PairReason(r.reason)) <==> !ReachesGate(items, disabled, x)
  {
    Fate(items, disabled, gate, approvals, rs, x);
    if !ReachesGate(items, disabled, x) {
      assert Rejection(x, FinalReason(items, disabled, gate, x)) in rs;
    }
  }

  /** Of a whole pair exactly one leg comes out approved if and only if the gate's verdicts on the two differ; the
      other leg then is rejected with the gate's code. */
  lemma PairSplitsExactly(items: seq<Item>, disabled: set<string>, gate: Item -> Verdict, approvals: seq<Item>,
                          rs: seq<Rejection>,
                          x: Item, y: Item)
    requires Arbitrated(items, disabled, gate, approvals, rs) && x in items && y in items
    requires x.Paired() && x.pairId == y.pairId && x.strategy !in disabled && y.strategy !in disabled
    requires Legs(items, disabled, x.pairId.value, Up) == 1 && Legs(items, disabled, x.pairId.value, Down) == 1
    ensures (x in approvals) != (y in approvals) <==> gate(x).Accepted? != gate(y).Accepted?
    ensures x in approvals && y !in approvals ==> gate(y).Rejected? && Rejection(y, ByGate(gate(y).code)) in rs
  {
    Fate(items, disabled, gate, approvals, rs, x);
    Fate(items, disabled, gate, approvals, rs, y);
  }

  const UP_LEG := Item("s", Up, Some("p"), "")
  const DOWN_LEG := Item("s", Down, Some("p"), "")

  function UpOnly(): Item -> Verdict {
    (x: Item) => if x.side.Up? then Accepted else Rejected("DOWN_BLOCKED")
  }

  /** Such a batch: whatever arbitration returns for it, the pair is split. */
  lemma PairIsSplit(approvals: seq<Item>, rs: seq<Rejection>)
    requires Arbitrated([UP_LEG, DOWN_LEG], {}, UpOnly(), approvals, rs)
    ensures approvals == [UP_LEG] && rs == [Rejection(DOWN_LEG, ByGate("DOWN_BLOCKED"))]
  {
    var items := [UP_LEG, DOWN_LEG];
    assert items[1..] == [DOWN_LEG] && [DOWN_LEG][1..] == [];
    assert Legs([DOWN_LEG], {}, "p", Up) == 0 && Legs([DOWN_LEG], {}, "p", Down) == 1;
    Fate(items, {}, UpOnly(), approvals, rs, UP_LEG);
    Fate(items, {}, UpOnly(), approvals, rs, DOWN_LEG);
    assert multiset(items) == multiset{UP_LEG, DOWN_LEG};
    assert |multiset(approvals) + multiset(ItemsOf(rs))| == 2;
    assert |approvals| + |rs| == 2;
  }

  class DecisionPolicy {
    const gate: Item -> Verdict
    var disabledStrategies: set<string>

    constructor (gate: Item -> Verdict, disabled: set<string>)
      ensures this.gate == gate && disabledStrategies == disabled
    {
      this.gate, disabledStrategies := gate, disabled;
    }

    method SetStrategyEnabled(name: string, enabled: bool)
      modifies `disabledStrategies
      ensures forall s :: s in disabledStrategies <==> (if s == name then !enabled else s in old(disabledStrategies))
    {
      disabledStrategies := if enabled then disabledStrategies - {name} else disabledStrategies + {name};
    }

    /** Refuse the disabled, pass the unpaired, and collect the rest by pair id. */
    method Regroup(items: seq<Item>)
      returns (unpaired: seq<Item>, rejections: seq<Rejection>, pairs: map<string, seq<Item>>)
      ensures unpaired == Filter(items, IsUnpaired(disabledStrategies))
      ensures ItemsOf(rejections) == Filter(items, IsDisabled(disabledStrategies))
      ensures forall k | 0 <= k < |rejections| ::
              rejections[k].reason == ManualDisabled && rejections[k].item.strategy in disabledStrategies
      ensures forall p :: p in pairs <==> p != "" && Group(items, disabledStrategies, p) != []
      ensures forall p | p in pairs :: pairs[p] == Group(items, disabledStrategies, p)
    {
      unpaired, rejections, pairs := [], [], map[];
      for n := 0 to |items|
        invariant unpaired == Filter(items[..n], IsUnpaired(disabledStrategies))
        invariant ItemsOf(rejections) == Filter(items[..n], IsDisabled(disabledStrategies))
        invariant forall k | 0 <= k < |rejections| ::
                  rejections[k].reason == ManualDisabled && rejections[k].item.strategy in disabledStrategies
        invariant forall p :: p in pairs <==> p != "" && Group(items[..n], disabledStrategies, p) != []
        invariant forall p | p in pairs :: pairs[p] == Group(items[..n], disabledStrategies, p)
      {
        var x := items[n];
        assert items[..n + 1][..n] == items[..n];
        if x.strategy in disabledStrategies {
          ItemsOfConcat(rejections, [Rejection(x, ManualDisabled)]);
          assert ItemsOf([Rejection(x, ManualDisabled)]) == [x];
          rejections := rejections + [Rejection(x, ManualDisabled)];
        } else if x.Paired() {
          pairs := pairs[x.pairId.value := (if x.pairId.value in pairs then pairs[x.pairId.value] else []) + [x]];
        } else {
          unpaired := unpaired + [x];
        }
      }
      assert items[..|items|] == items;
    }

    /** Pass a whole pair on; refuse every member of anything else. */
    method ResolvePairGroup(members: seq<Item>, unpaired: seq<Item>, rejections: seq<Rejection>)
      returns (unpaired': seq<Item>, rejections': seq<Rejection>)
      requires members != []
      ensures IsWholePair(members) ==> unpaired' == unpaired + members && rejections' == rejections
      ensures !IsWholePair(members) ==>
                && unpaired' == unpaired
                && |rejections'| == |rejections| + |members| && rejections <= rejections'
                && forall k | 0 <= k < |members| :: rejections'[|rejections| + k] ==
                     Rejection(members[k], if |members| >= 2 then MalformedPair else IncompletePair)
    {
      unpaired', rejections' := unpaired, rejections;
      var sides := set x | x in members :: x.side;
      var malformed := |members| > 2 || (|members| == 2 && sides != {Up, Down});
      if |members| == 2 {
        assert members[0] in members && members[1] in members;
        assert forall side :: side in sides <==> side == members[0].side || side == members[1].side;
        assert members[0].side != members[1].side <==> Up in sides && Down in sides;
      }
      if !malformed && |members| == 2 {
        unpaired' := unpaired + members;
        return;
      }
      var reason := if malformed then MalformedPair else IncompletePair;
      for n := 0 to |members|
        invariant |rejections'| == |rejections| + n && rejections <= rejections'
        invariant forall k | 0 <= k < n :: rejections'[|rejections| + k] == Rejection(members[k], reason)
      {
        rejections' := rejections' + [Rejection(members[n], reason)];
      }
    }

    method PartitionBatch(items: seq<Item>) returns (unpaired: seq<Item>, rejections: seq<Rejection>)
      ensures Sorted(items, disabledStrategies, {}, unpaired, rejections)
    {
      var pairs: map<string, seq<Item>>;
      unpaired, rejections, pairs := Regroup(items);
      RegroupSorts(items, disabledStrategies, pairs.Keys, unpaired, ItemsOf(rejections));
      var rest := pairs.Keys;
      while rest != {}
        invariant rest <= pairs.Keys
        invariant Sorted(items, disabledStrategies, rest, unpaired, rejections)
        decreases rest
      {
        var p :| p in rest;
        ghost var gated, rs := unpaired, rejections;
        unpaired, rejections := ResolvePairGroup(pairs[p], unpaired, rejections);
        Resolved(items, rest, p, gated, rs, unpaired, rejections);
        rest := rest - {p};
      }
    }

    lemma Resolved(items: seq<Item>, open: set<string>, p: string, gated: seq<Item>, rs: seq<Rejection>,
                   gated': seq<Item>, rs': seq<Rejection>)
      requires p in open && p != "" && Sorted(items, disabledStrategies, open, gated, rs)
      requires
        var g := Group(items, disabledStrategies, p);
        if IsWholePair(g) then gated' == gated + g && rs' == rs
        else && gated' == gated && |rs'| == |rs| + |g| && rs <= rs'
             && forall k | 0 <= k < |g| ::
                  rs'[|rs| + k] == Rejection(g[k], if |g| >= 2 then MalformedPair else IncompletePair)
      ensures Sorted(items, disabledStrategies, open - {p}, gated', rs')
    {
      var g := Group(items, disabledStrategies, p);
      if IsWholePair(g) {
        WholePairPasses(items, disabledStrategies, open, p, gated, ItemsOf(rs));
      } else {
        OtherGroupIsRefused(items, disabledStrategies, open, p, gated, ItemsOf(rs));
        assert ItemsOf(rs') == ItemsOf(rs) + g;
        GroupLegs(items, disabledStrategies, p);
        forall k | 0 <= k < |rs'| ensures rs'[k].reason == ReasonFor(items, disabledStrategies, rs'[k].item) {
          if k >= |rs| {
            assert rs'[|rs| + (k - |rs|)].item == g[k - |rs|] && g[k - |rs|] in g;
          }
        }
      }
    }

    /** The gate has split `seen` into `committed` and `rejections`. */
    ghost predicate Gated(seen: seq<Item>, committed: seq<Item>, rejections: seq<Rejection>) reads this {
      && (forall x :: multiset(committed)[x] == if gate(x).Accepted? then multiset(seen)[x] else 0)
      && (forall x :: multiset(ItemsOf(rejections))[x] == if gate(x).Accepted? then 0 else multiset(seen)[x])
      && (forall k | 0 <= k < |rejections| ::
            gate(rejections[k].item).Rejected? && rejections[k].reason == ByGate(gate(rejections[k].item).code))
    }

    lemma GatedOneMore(seen: seq<Item>, committed: seq<Item>, rejections: seq<Rejection>, x: Item)
      requires Gated(seen, committed, rejections)
      ensures gate(x).Accepted? ==> Gated(seen + [x], committed + [x], rejections)
      ensures gate(x).Rejected? ==> Gated(seen + [x], committed, rejections + [Rejection(x, ByGate(gate(x).code))])
    {
      assert multiset(seen + [x]) == multiset(seen) + multiset{x};
      if gate(x).Accepted? {
        assert multiset(committed + [x]) == multiset(committed) + multiset{x};
      } else {
        var r := Rejection(x, ByGate(gate(x).code));
        ItemsOfConcat(rejections, [r]);
        assert ItemsOf([r]) == [x];
        assert multiset(ItemsOf(rejections) + [x]) == multiset(ItemsOf(rejections)) + multiset{x};
      }
    }

    method GateBatch(unpaired: seq<Item>) returns (committed: seq<Item>, rejections: seq<Rejection>)
      ensures Gated(unpaired, committed, rejections)
    {
      committed, rejections := [], [];
      for n := 0 to |unpaired|
        invariant Gated(unpaired[..n], committed, rejections)
      {
        var x := unpaired[n];
        assert unpaired[..n + 1] == unpaired[..n] + [x];
        GatedOneMore(unpaired[..n], committed, rejections, x);
        var verdict := gate(x);
        if verdict.Accepted? {
          committed := committed + [x];
        } else {
          rejections := rejections + [Rejection(x, ByGate(verdict.code))];
        }
      }
      assert unpaired[..|unpaired|] == unpaired;
    }

    method BatchArbitrate(items: seq<Item>) returns (approvals: seq<Item>, rejections: seq<Rejection>)
      ensures Arbitrated(items, disabledStrategies, gate, approvals, rejections)
    {
      var unpaired, refused := PartitionBatch(items);
      var gateRejections;
      approvals, gateRejections := GateBatch(unpaired);
      rejections := refused + gateRejections;
      ItemsOfConcat(refused, gateRejections);
      GateDecides(items, unpaired, refused, approvals, gateRejections);
      ReasonsKept(items, unpaired, refused, approvals, gateRejections);
    }

    lemma GateDecides(items: seq<Item>, unpaired: seq<Item>, refused: seq<Rejection>, approvals: seq<Item>,
                      byGate: seq<Rejection>)
      requires Sorted(items, disabledStrategies, {}, unpaired, refused) && Gated(unpaired, approvals, byGate)
      ensures multiset(approvals) + multiset(ItemsOf(refused) + ItemsOf(byGate)) == multiset(items)
      ensures forall x ::
                multiset(approvals)[x] == if Approved(items, disabledStrategies, gate, x) then multiset(items)[x] else 0
    {
      assert multiset(ItemsOf(refused) + ItemsOf(byGate)) == multiset(ItemsOf(refused)) + multiset(ItemsOf(byGate));
      forall x
        ensures multiset(approvals)[x] + (multiset(ItemsOf(refused)) + multiset(ItemsOf(byGate)))[x] ==
                multiset(items)[x]
      {
        assert !Waits(disabledStrategies, {}, x);
      }
    }

    lemma ReasonsKept(items: seq<Item>, unpaired: seq<Item>, refused: seq<Rejection>, approvals: seq<Item>,
                      byGate: seq<Rejection>)
      requires Sorted(items, disabledStrategies, {}, unpaired, refused) && Gated(unpaired, approvals, byGate)
      ensures
        var rs := refused + byGate;
        forall k | 0 <= k < |rs| :: rs[k].reason == FinalReason(items, disabledStrategies, gate, rs[k].item)
    {
      var rs := refused + byGate;
      forall k | 0 <= k < |rs| ensures rs[k].reason == FinalReason(items, disabledStrategies, gate, rs[k].item) {
        var x := rs[k].item;
        if k < |refused| {
          assert rs[k] == refused[k] && ItemsOf(refused)[k] == x && x in ItemsOf(refused);
          assert multiset(ItemsOf(refused))[x] > 0;
        } else {
          var j := k - |refused|;
          assert rs[k] == byGate[j] && ItemsOf(byGate)[j] == x && x in ItemsOf(byGate);
          assert multiset(ItemsOf(byGate))[x] > 0;
        }
      }
    }
  }
}

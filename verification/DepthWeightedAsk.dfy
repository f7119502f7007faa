/** The average price of buying a number of shares through the ask side of a book, cheapest levels first. */
module DepthWeightedAsk {
  import opened Options

  datatype Level = Level(price: real, size: real)

  // ---------- what a fill is ----------

  ghost predicate NonNegative(levels: seq<Level>) {
    forall l | l in levels :: l.size >= 0.0
  }

  function TotalSize(levels: seq<Level>): real {
    if levels == [] then 0.0 else levels[0].size + TotalSize(levels[1..])
  }

  function Sum(takes: seq<real>): real {
    if takes == [] then 0.0 else takes[0] + Sum(takes[1..])
  }

  /** Kept apart so that proofs treat products as terms. */
  function Paid(shares: real, price: real): real {
    shares * price
  }

  function Cost(levels: seq<Level>, takes: seq<real>): real
    requires |takes| == |levels|
  {
    if levels == [] then 0.0 else Paid(takes[0], levels[0].price) + Cost(levels[1..], takes[1..])
  }

  /** `takes[i]` shares are bought at level i, never more than it offers, `shares` in all. */
  ghost predicate Feasible(levels: seq<Level>, shares: real, takes: seq<real>) {
    && |takes| == |levels|
    && (forall i | 0 <= i < |takes| :: 0.0 <= takes[i] <= levels[i].size)
    && Sum(takes) == shares
  }

  ghost predicate MinimumCost(levels: seq<Level>, shares: real, cost: real) {
    && (exists takes :: Feasible(levels, shares, takes) && Cost(levels, takes) == cost)
    && (forall takes | Feasible(levels, shares, takes) :: cost <= Cost(levels, takes))
  }

  // ---------- the computation ----------

  function Insert(l: Level, sorted: seq<Level>): seq<Level> {
    if sorted == [] || l.price <= sorted[0].price then [l] + sorted else [sorted[0]] + Insert(l, sorted[1..])
  }

  /** A stable sort by price. */
  function ByPrice(levels: seq<Level>): seq<Level> {
    if levels == [] then [] else Insert(levels[0], ByPrice(levels[1..]))
  }

  ghost predicate Ordered(levels: seq<Level>) {
    forall i, j | 0 <= i < j < |levels| :: levels[i].price <= levels[j].price
  }

  function Min(a: real, b: real): real {
    if b < a then b else a
  }

  /** The cost of taking levels in order until nothing remains, and what remains. */
  function Fill(levels: seq<Level>, remaining: real): (real, real) {
    if levels == [] then (0.0, remaining)
    else
      var take := Min(remaining, levels[0].size);
      var rest := if remaining - take <= 0.0 then (0.0, remaining - take) else Fill(levels[1..], remaining - take);
      (Paid(take, levels[0].price) + rest.0, rest.1)
  }

  function PerShare(total: real, shares: int): real
    requires shares > 0
  {
    total / shares as real
  }

  method DepthAsk(levels: seq<Level>, shares: int) returns (ask: Option<real>)
    ensures NonNegative(levels) ==> (ask.Some? <==> 0 < shares && shares as real <= TotalSize(levels))
    ensures ask.Some? ==>
      (MinimumCost(levels, shares as real, Paid(shares as real, ask.value)) <==> NonNegative(levels))
  {
    if shares <= 0 || levels == [] {
      return None;
    }
    var remaining, total := shares as real, 0.0;
    var sorted := ByPrice(levels);
    ghost var whole := Fill(sorted, remaining);
    for n := 0 to |sorted|
      invariant remaining > 0.0
      invariant whole == (total + Fill(sorted[n..], remaining).0, Fill(sorted[n..], remaining).1)
    {
      assert sorted[n..] == [sorted[n]] + sorted[n + 1..];
      FillStep(sorted[n], sorted[n + 1..], remaining);
      var take := Min(remaining, sorted[n].size);
      total := total + Paid(take, sorted[n].price);
      remaining := remaining - take;
      if remaining <= 0.0 {
        break;
      }
    }
    assert whole == (total, remaining);
    FillDecides(levels, shares);
    if remaining > 0.0 {
      return None;
    }
    ask := Some(PerShare(total, shares));
  }

  lemma FillDecides(levels: seq<Level>, shares: int)
    requires shares > 0
    ensures
      var whole := Fill(ByPrice(levels), shares as real);
      NonNegative(levels) ==>
        && (whole.1 <= 0.0 <==> shares as real <= TotalSize(levels))
        && (whole.1 <= 0.0 ==> MinimumCost(levels, shares as real, Paid(shares as real, PerShare(whole.0, shares))))
    ensures
      var whole := Fill(ByPrice(levels), shares as real);
      MinimumCost(levels, shares as real, Paid(shares as real, PerShare(whole.0, shares))) ==> NonNegative(levels)
  {
    var paid := Paid(shares as real, PerShare(Fill(ByPrice(levels), shares as real).0, shares));
    if MinimumCost(levels, shares as real, paid) {
      AllocationsNeedSizes(levels, shares as real, paid);
    }
    if NonNegative(levels) {
      Average(Fill(ByPrice(levels), shares as real).0, shares);
      FillIsOptimal(levels, shares as real);
    }
  }

  lemma FillStep(first: Level, levels: seq<Level>, remaining: real)
    ensures
      var take := Min(remaining, first.size);
      var rest := if remaining - take <= 0.0 then (0.0, remaining - take) else Fill(levels, remaining - take);
      Fill([first] + levels, remaining) == (Paid(take, first.price) + rest.0, rest.1)
  {
    assert ([first] + levels)[1..] == levels;
  }

  lemma Average(total: real, shares: int)
    requires shares > 0
    ensures Paid(shares as real, PerShare(total, shares)) == total
  {
  }

  // ---------- sorting keeps every allocation and its cost ----------

  lemma {:induction false} InsertKeeps(l: Level, levels: seq<Level>)
    ensures multiset(Insert(l, levels)) == multiset(levels) + multiset{l}
  {
    if levels != [] {
      InsertKeeps(l, levels[1..]);
      assert levels == [levels[0]] + levels[1..];
    }
  }

  lemma {:induction false} InsertOrders(l: Level, levels: seq<Level>)
    requires Ordered(levels)
    ensures Ordered(Insert(l, levels))
    ensures Insert(l, levels)[0] == l || (levels != [] && Insert(l, levels)[0] == levels[0])
  {
    if levels != [] && l.price > levels[0].price {
      var rest := Insert(l, levels[1..]);
      InsertOrders(l, levels[1..]);
      assert levels[0].price <= rest[0].price;
      assert forall j | 0 < j < |rest| :: rest[0].price <= rest[j].price;
    }
  }

  lemma {:induction false} ByPriceSorts(levels: seq<Level>)
    ensures Ordered(ByPrice(levels)) && multiset(ByPrice(levels)) == multiset(levels)
  {
    if levels != [] {
      ByPriceSorts(levels[1..]);
      InsertKeeps(levels[0], ByPrice(levels[1..]));
      InsertOrders(levels[0], ByPrice(levels[1..]));
      assert levels == [levels[0]] + levels[1..];
    }
  }

  lemma {:induction false} Uninsert(l: Level, levels: seq<Level>, takes: seq<real>, shares: real)
    returns (back: seq<real>)
    requires Feasible(Insert(l, levels), shares, takes)
    ensures Feasible([l] + levels, shares, back) && Cost([l] + levels, back) == Cost(Insert(l, levels), takes)
  {
    if levels == [] || l.price <= levels[0].price {
      back := takes;
    } else {
      var first, rest := takes[0], takes[1..];
      var inner := Uninsert(l, levels[1..], rest, shares - first);
      back := [inner[0], first] + inner[1..];
      assert back[1..] == [first] + inner[1..] && back[1..][1..] == inner[1..];
      assert ([l] + levels)[1..] == levels && ([l] + levels[1..])[1..] == levels[1..];
    }
  }

  lemma {:induction false} Unsort(levels: seq<Level>, takes: seq<real>, shares: real) returns (back: seq<real>)
    requires Feasible(ByPrice(levels), shares, takes)
    ensures Feasible(levels, shares, back) && Cost(levels, back) == Cost(ByPrice(levels), takes)
  {
    if levels == [] {
      back := takes;
    } else {
      var first, sorted := levels[0], ByPrice(levels[1..]);
      assert ByPrice(levels) == Insert(first, sorted);
      var moved := Uninsert(first, sorted, takes, shares);
      FeasibleTail(first, sorted, moved, shares);
      var inner := Unsort(levels[1..], moved[1..], shares - moved[0]);
      FeasibleCons(first, moved[0], levels[1..], inner, shares - moved[0]);
      assert levels == [first] + levels[1..];
      back := [moved[0]] + inner;
    }
  }

  lemma FeasibleTail(first: Level, levels: seq<Level>, takes: seq<real>, shares: real)
    requires Feasible([first] + levels, shares, takes)
    ensures 0.0 <= takes[0] <= first.size && Feasible(levels, shares - takes[0], takes[1..])
    ensures Cost([first] + levels, takes) == Paid(takes[0], first.price) + Cost(levels, takes[1..])
  {
    var whole := [first] + levels;
    assert whole[1..] == levels && whole[0] == first;
    assert forall i | 0 <= i < |levels| :: levels[i] == whole[i + 1];
  }

  lemma FeasibleCons(first: Level, take: real, levels: seq<Level>, takes: seq<real>, shares: real)
    requires 0.0 <= take <= first.size && Feasible(levels, shares, takes)
    ensures Feasible([first] + levels, take + shares, [take] + takes)
    ensures Cost([first] + levels, [take] + takes) == Paid(take, first.price) + Cost(levels, takes)
  {
    assert ([take] + takes)[1..] == takes && ([first] + levels)[1..] == levels;
  }

  // ---------- the marginal price bounds every allocation ----------

  /** What the levels below price q save against paying q for them. */
  function Savings(levels: seq<Level>, q: real): real {
    if levels == [] then 0.0
    else (if levels[0].price < q then Paid(levels[0].size, levels[0].price - q) else 0.0) + Savings(levels[1..], q)
  }

  lemma {:induction false} InsertKeepsSavings(l: Level, levels: seq<Level>, q: real)
    ensures Savings(Insert(l, levels), q) == Savings([l] + levels, q)
    ensures TotalSize(Insert(l, levels)) == TotalSize([l] + levels)
  {
    assert ([l] + levels)[1..] == levels;
    if levels != [] && l.price > levels[0].price {
      InsertKeepsSavings(l, levels[1..], q);
      assert ([l] + levels[1..])[1..] == levels[1..];
    }
  }

  lemma {:induction false} SortKeepsSavings(levels: seq<Level>, q: real)
    ensures Savings(ByPrice(levels), q) == Savings(levels, q)
    ensures TotalSize(ByPrice(levels)) == TotalSize(levels)
  {
    if levels != [] {
      SortKeepsSavings(levels[1..], q);
      InsertKeepsSavings(levels[0], ByPrice(levels[1..]), q);
      assert ([levels[0]] + ByPrice(levels[1..]))[1..] == ByPrice(levels[1..]);
    }
  }

  lemma BoundOne(take: real, size: real, price: real, q: real)
    requires 0.0 <= take <= size
    ensures Paid(take, price) >= Paid(q, take) + (if price < q then Paid(size, price - q) else 0.0)
  {
    assert take * price == take * q + take * (price - q);
    if price < q {
      assert (size - take) * (q - price) >= 0.0;
      assert take * (price - q) - size * (price - q) == (size - take) * (q - price);
    } else {
      assert take * (price - q) >= 0.0;
    }
  }

  /** No allocation is cheaper than buying everything at q less the savings below q. */
  lemma {:induction false} DualBound(levels: seq<Level>, takes: seq<real>, shares: real, q: real)
    requires Feasible(levels, shares, takes)
    ensures Cost(levels, takes) >= Paid(q, shares) + Savings(levels, q)
  {
    if levels != [] {
      DualBound(levels[1..], takes[1..], shares - takes[0], q);
      BoundOne(takes[0], levels[0].size, levels[0].price, q);
      assert Paid(q, shares - takes[0]) == Paid(q, shares) - Paid(q, takes[0]);
    }
  }

  lemma {:induction false} NoSavings(levels: seq<Level>, q: real)
    requires forall l | l in levels :: q <= l.price
    ensures Savings(levels, q) == 0.0
  {
    if levels != [] {
      assert levels[0] in levels;
      NoSavings(levels[1..], q);
    }
  }

  lemma {:induction false} TotalNonNegative(levels: seq<Level>)
    requires NonNegative(levels)
    ensures TotalSize(levels) >= 0.0
  {
    if levels != [] {
      TotalNonNegative(levels[1..]);
      assert levels[0] in levels;
    }
  }

  /** Filling in order leaves nothing exactly when there is enough. */
  lemma {:induction false} FillCovers(levels: seq<Level>, shares: real)
    requires NonNegative(levels) && shares > 0.0
    ensures Fill(levels, shares).1 <= 0.0 <==> shares <= TotalSize(levels)
  {
    if levels != [] {
      assert levels[0] in levels;
      TotalNonNegative(levels[1..]);
      if shares > levels[0].size {
        FillCovers(levels[1..], shares - levels[0].size);
      }
    }
  }

  lemma {:induction false} Zeros(levels: seq<Level>) returns (takes: seq<real>)
    requires NonNegative(levels)
    ensures Feasible(levels, 0.0, takes) && Cost(levels, takes) == 0.0
  {
    if levels == [] {
      takes := [];
    } else {
      assert levels[0] in levels;
      var rest := Zeros(levels[1..]);
      takes := [0.0] + rest;
    }
  }

  /** A fill in price order is an allocation, and its cost meets the bound at the price of its last level. */
  lemma {:induction false} FillMeetsBound(levels: seq<Level>, shares: real) returns (takes: seq<real>, q: real)
    requires NonNegative(levels) && Ordered(levels) && 0.0 < shares <= TotalSize(levels)
    ensures Feasible(levels, shares, takes) && Cost(levels, takes) == Fill(levels, shares).0
    ensures levels != [] && levels[0].price <= q
    ensures Fill(levels, shares).0 == Paid(q, shares) + Savings(levels, q)
  {
    var first, others := levels[0], levels[1..];
    assert levels == [first] + others && first in levels;
    assert forall l | l in others :: l in levels;
    if shares <= first.size {
      takes := LastLevel(first, others, shares);
      q := first.price;
    } else {
      var rest;
      rest, q := FillMeetsBound(others, shares - first.size);
      takes := WholeLevel(first, others, shares, rest, q);
    }
  }

  lemma LastLevel(first: Level, others: seq<Level>, shares: real) returns (takes: seq<real>)
    requires NonNegative(others) && Ordered([first] + others) && 0.0 < shares <= first.size
    ensures Feasible([first] + others, shares, takes)
    ensures Cost([first] + others, takes) == Fill([first] + others, shares).0
    ensures Fill([first] + others, shares).0 == Paid(first.price, shares) + Savings([first] + others, first.price)
  {
    var rest := Zeros(others);
    FillStep(first, others, shares);
    FeasibleCons(first, shares, others, rest, 0.0);
    takes := [shares] + rest;
    NoSavings([first] + others, first.price);
  }

  lemma WholeLevel(first: Level, others: seq<Level>, shares: real, rest: seq<real>, q: real) returns (takes: seq<real>)
    requires others != [] && Ordered([first] + others) && 0.0 <= first.size < shares && others[0].price <= q
    requires Feasible(others, shares - first.size, rest) && Cost(others, rest) == Fill(others, shares - first.size).0
    requires Fill(others, shares - first.size).0 == Paid(q, shares - first.size) + Savings(others, q)
    ensures Feasible([first] + others, shares, takes)
    ensures Cost([first] + others, takes) == Fill([first] + others, shares).0
    ensures first.price <= q && Fill([first] + others, shares).0 == Paid(q, shares) + Savings([first] + others, q)
  {
    var levels := [first] + others;
    FillStep(first, others, shares);
    FeasibleCons(first, first.size, others, rest, shares - first.size);
    takes := [first.size] + rest;
    assert levels[0] == first && levels[1] == others[0] && levels[1..] == others;
    Telescope(first, q, shares);
  }

  lemma Telescope(first: Level, q: real, shares: real)
    ensures Paid(first.size, first.price) + Paid(q, shares - first.size) ==
            Paid(q, shares) + Paid(first.size, first.price - q)
  {
  }

  /** On levels in any order, the fill's cost is the least over all allocations. */
  lemma FillIsOptimal(levels: seq<Level>, shares: real)
    requires NonNegative(levels) && shares > 0.0
    ensures Fill(ByPrice(levels), shares).1 <= 0.0 <==> shares <= TotalSize(levels)
    ensures shares <= TotalSize(levels) ==> MinimumCost(levels, shares, Fill(ByPrice(levels), shares).0)
  {
    var sorted := ByPrice(levels);
    ByPriceSorts(levels);
    forall l | l in sorted ensures l.size >= 0.0 {
      assert l in multiset(sorted);
    }
    SortKeepsSavings(levels, 0.0);
    FillCovers(sorted, shares);
    if shares <= TotalSize(levels) {
      var takes, q := FillMeetsBound(sorted, shares);
      var back := Unsort(levels, takes, shares);
      SortKeepsSavings(levels, q);
      forall other | Feasible(levels, shares, other) ensures Fill(sorted, shares).0 <= Cost(levels, other) {
        DualBound(levels, other, shares, q);
      }
    }
  }

  /** Where any level has a negative size there is no allocation, so no cost is the least one. */
  lemma AllocationsNeedSizes(levels: seq<Level>, shares: real, cost: real)
    requires MinimumCost(levels, shares, cost)
    ensures NonNegative(levels)
  {
    var takes :| Feasible(levels, shares, takes) && Cost(levels, takes) == cost;
    forall l | l in levels ensures l.size >= 0.0 {
      var i :| 0 <= i < |levels| && levels[i] == l;
      assert 0.0 <= takes[i] <= levels[i].size;
    }
  }

  /** A level of negative size makes the fill claim a cost no allocation has. */
  lemma NegativeSizeMisprices()
    ensures
      var levels := [Level(1.0, -1.0), Level(2.0, 2.0)];
      && Fill(ByPrice(levels), 1.0) == (3.0, 0.0)
      && forall takes :: !Feasible(levels, 1.0, takes)
  {
    var levels := [Level(1.0, -1.0), Level(2.0, 2.0)];
    assert levels[1..] == [Level(2.0, 2.0)];
    assert ByPrice(levels[1..]) == [Level(2.0, 2.0)];
    assert ByPrice(levels) == levels;
    assert Fill([Level(2.0, 2.0)], 2.0) == (4.0, 0.0);
  }
}

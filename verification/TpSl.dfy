/** Stop-loss and take-profit prices of an entry, tied by a reward ratio and kept under a cap. */
module TpSl {
  import opened Options
  import opened Reals

  datatype Thresholds = Thresholds(stop: real, takeProfit: Option<real>, risk: real, balancedStop: Option<real>)

  function Max(a: real, b: real): real {
    if b > a then b else a
  }

  function Reward(ratio: real, risk: real): real {
    risk * ratio
  }

  /** The risk whose reward reaches the cap. */
  function RiskUnder(entry: real, ratio: real, cap: real): real
    requires ratio != 0.0
  {
    (cap - entry) / ratio
  }

  lemma RewardSign(ratio: real, risk: real)
    requires risk >= 0.0
    ensures Reward(ratio, risk) > 0.0 <==> ratio > 0.0 && risk > 0.0
  {
    if risk > 0.0 {
      ProductPositive(ratio, risk);
    }
  }

  lemma RiskUnderExactly(entry: real, ratio: real, cap: real, risk: real)
    requires ratio > 0.0 && cap < entry + Reward(ratio, risk)
    ensures
      var balanced := RiskUnder(entry, ratio, cap);
      balanced < risk && (balanced > 0.0 <==> cap > entry) && Reward(ratio, balanced) == cap - entry
  {
    QuotientOrder(cap - entry, ratio, risk);
    QuotientOrder(cap - entry, ratio, 0.0);
  }

  function RequestedStop(entry: real, stopFraction: real): real {
    Max(0.0, entry * (1.0 - stopFraction))
  }

  /** The thresholds of a positive entry whose stop is requested. */
  function FromStop(entry: real, stop: real, ratio: real, cap: real): Thresholds {
    var risk := Max(0.0, entry - stop);
    var target := entry + Reward(ratio, risk);
    if target <= entry then Thresholds(stop, None, risk, None)
    else
      RewardSign(ratio, risk);
      var capped := if target < cap then target else cap;
      if capped < target && Max(0.0, entry - RiskUnder(entry, ratio, capped)) < entry then
        var raised := Max(0.0, entry - RiskUnder(entry, ratio, capped));
        Thresholds(raised, Some(capped), entry - raised, Some(raised))
      else Thresholds(stop, Some(capped), risk, None)
  }

  function Compute(entry: real, stopFraction: real, ratio: real, cap: real): Thresholds {
    if entry <= 0.0 then Thresholds(0.0, None, 0.0, None)
    else FromStop(entry, RequestedStop(entry, stopFraction), ratio, cap)
  }

  /** The stop is below the entry, the target above it and under the cap, and the reward is the ratio times the risk. */
  predicate Balanced(entry: real, ratio: real, cap: real, stop: real, target: real) {
    0.0 <= stop < entry < target <= cap && target - entry == Reward(ratio, entry - stop)
  }

  predicate BalancedThresholds(entry: real, ratio: real, cap: real, r: Thresholds) {
    r.takeProfit.Some? && Balanced(entry, ratio, cap, r.stop, r.takeProfit.value) && r.risk == entry - r.stop
  }

  lemma RiskExactly(entry: real, stopFraction: real)
    requires entry > 0.0
    ensures RequestedStop(entry, stopFraction) < entry <==> stopFraction > 0.0
  {
    ProductPositive(stopFraction, entry);
    assert entry * (1.0 - stopFraction) == entry - stopFraction * entry;
  }

  /** The stop the cap raises, and the target it cuts. */
  lemma CappedIs(entry: real, stop: real, ratio: real, cap: real)
    requires 0.0 <= stop < entry && ratio > 0.0 && cap < entry + Reward(ratio, entry - stop)
    ensures
      var balanced := RiskUnder(entry, ratio, cap);
      && balanced < entry - stop && (balanced > 0.0 <==> entry < cap) && Reward(ratio, balanced) == cap - entry
      && FromStop(entry, stop, ratio, cap) ==
           if entry < cap then Thresholds(entry - balanced, Some(cap), balanced, Some(entry - balanced))
           else Thresholds(stop, Some(cap), entry - stop, None)
  {
    RewardSign(ratio, entry - stop);
    RiskUnderExactly(entry, ratio, cap, entry - stop);
  }

  lemma UncappedIs(entry: real, stop: real, ratio: real, cap: real)
    requires 0.0 <= stop < entry && ratio > 0.0 && entry + Reward(ratio, entry - stop) <= cap
    ensures FromStop(entry, stop, ratio, cap) ==
            Thresholds(stop, Some(entry + Reward(ratio, entry - stop)), entry - stop, None)
    ensures entry < cap
  {
    RewardSign(ratio, entry - stop);
  }

  lemma FromStopBalances(entry: real, stop: real, ratio: real, cap: real)
    requires 0.0 <= stop && 0.0 < entry
    ensures BalancedThresholds(entry, ratio, cap, FromStop(entry, stop, ratio, cap))
            <==> entry < cap && stop < entry && ratio > 0.0
  {
    RewardSign(ratio, Max(0.0, entry - stop));
    if stop < entry && ratio > 0.0 {
      if cap < entry + Reward(ratio, entry - stop) {
        CappedIs(entry, stop, ratio, cap);
        var balanced := RiskUnder(entry, ratio, cap);
        assert entry - (entry - balanced) == balanced;
      } else {
        UncappedIs(entry, stop, ratio, cap);
      }
    }
  }

  /** The thresholds are balanced exactly for a positive entry under the cap, a positive stop fraction and a positive
      ratio. */
  lemma BalancedExactly(entry: real, stopFraction: real, ratio: real, cap: real)
    ensures BalancedThresholds(entry, ratio, cap, Compute(entry, stopFraction, ratio, cap))
            <==> 0.0 < entry < cap && stopFraction > 0.0 && ratio > 0.0
  {
    if entry > 0.0 {
      RiskExactly(entry, stopFraction);
      FromStopBalances(entry, RequestedStop(entry, stopFraction), ratio, cap);
    }
  }

  /** The stop of a balanced pair is positive exactly when less than the whole entry is at risk or the cap raises the
      stop. */
  lemma StopPositiveExactly(entry: real, stopFraction: real, ratio: real, cap: real)
    requires 0.0 < entry < cap && stopFraction > 0.0 && ratio > 0.0
    ensures Compute(entry, stopFraction, ratio, cap).stop > 0.0
            <==> stopFraction < 1.0 || cap < entry + Reward(ratio, entry)
  {
    var requested := RequestedStop(entry, stopFraction);
    RiskExactly(entry, stopFraction);
    RequestedPositive(entry, stopFraction);
    if cap < entry + Reward(ratio, entry - requested) {
      CappedIs(entry, requested, ratio, cap);
      MoreRiskMoreReward(ratio, entry - requested, entry);
    } else {
      UncappedIs(entry, requested, ratio, cap);
    }
  }

  lemma RequestedPositive(entry: real, stopFraction: real)
    requires entry > 0.0
    ensures RequestedStop(entry, stopFraction) > 0.0 <==> stopFraction < 1.0
    ensures stopFraction >= 1.0 ==> RequestedStop(entry, stopFraction) == 0.0
  {
    ProductPositive(1.0 - stopFraction, entry);
    assert entry * (1.0 - stopFraction) == (1.0 - stopFraction) * entry;
  }

  lemma MoreRiskMoreReward(ratio: real, risk: real, more: real)
    requires ratio > 0.0 && risk <= more
    ensures Reward(ratio, risk) <= Reward(ratio, more)
  {
    ProductNonNegative(more - risk, ratio);
    assert (more - risk) * ratio == more * ratio - risk * ratio;
  }

  /** An entry above the cap: its target lies below it. */
  lemma EntryAboveCap()
    ensures Compute(0.9, 0.5, 1.0, 0.8).takeProfit == Some(0.8)
  {
    assert RequestedStop(0.9, 0.5) == 0.45 && Reward(1.0, 0.45) == 0.45;
    assert RiskUnder(0.9, 1.0, 0.8) == -0.1;
  }

  /** Where there is no balance: no thresholds for an entry that is not positive, no target without risk or reward, and
      the cap for an entry at or above it. */
  lemma UnbalancedIs(entry: real, stopFraction: real, ratio: real, cap: real)
    ensures entry <= 0.0 ==> Compute(entry, stopFraction, ratio, cap) == Thresholds(0.0, None, 0.0, None)
    ensures entry > 0.0 && (stopFraction <= 0.0 || ratio <= 0.0) ==>
      var stop := if stopFraction < 1.0 then entry * (1.0 - stopFraction) else 0.0;
      Compute(entry, stopFraction, ratio, cap) ==
        Thresholds(stop, None, if stop < entry then entry - stop else 0.0, None)
    ensures entry > 0.0 && stopFraction > 0.0 && ratio > 0.0 && cap <= entry ==>
      var stop := if stopFraction < 1.0 then entry * (1.0 - stopFraction) else 0.0;
      Compute(entry, stopFraction, ratio, cap) == Thresholds(stop, Some(cap), entry - stop, None)
  {
    if entry > 0.0 {
      var stop := RequestedStop(entry, stopFraction);
      RequestedPositive(entry, stopFraction);
      RiskExactly(entry, stopFraction);
      RewardSign(ratio, Max(0.0, entry - stop));
      if stopFraction > 0.0 && ratio > 0.0 && cap <= entry {
        CappedIs(entry, stop, ratio, cap);
      }
    }
  }

  /** Capping raises the stop and nothing else moves it; and no balanced pair that respects the requested stop and the
      cap has a lower stop or a higher target. */
  lemma WidestBalanced(entry: real, stopFraction: real, ratio: real, cap: real, stop: real, target: real)
    requires 0.0 < entry < cap && stopFraction > 0.0 && ratio > 0.0
    ensures
      var r := Compute(entry, stopFraction, ratio, cap);
      && r.takeProfit.Some? && RequestedStop(entry, stopFraction) <= r.stop
      && (RequestedStop(entry, stopFraction) < r.stop <==> r.balancedStop.Some?)
      && (r.balancedStop.Some? ==> r.takeProfit.value == cap)
      && (Balanced(entry, ratio, cap, stop, target) && RequestedStop(entry, stopFraction) <= stop ==>
            r.stop <= stop && target <= r.takeProfit.value)
  {
    RiskExactly(entry, stopFraction);
    WidestFromStop(entry, RequestedStop(entry, stopFraction), ratio, cap, stop, target);
  }

  lemma WidestFromStop(entry: real, requested: real, ratio: real, cap: real, stop: real, target: real)
    requires 0.0 <= requested < entry < cap && ratio > 0.0
    ensures
      var r := FromStop(entry, requested, ratio, cap);
      && r.takeProfit.Some? && requested <= r.stop && (requested < r.stop <==> r.balancedStop.Some?)
      && (r.balancedStop.Some? ==> r.takeProfit.value == cap)
      && (Balanced(entry, ratio, cap, stop, target) && requested <= stop ==>
           r.stop <= stop && target <= r.takeProfit.value)
  {
    var full := entry + Reward(ratio, entry - requested);
    if cap < full {
      CappedIs(entry, requested, ratio, cap);
      var balanced := RiskUnder(entry, ratio, cap);
      assert entry - (entry - balanced) == balanced;
      if Balanced(entry, ratio, cap, stop, target) {
        Closer(entry, ratio, stop, target, entry - balanced, cap);
      }
    } else {
      UncappedIs(entry, requested, ratio, cap);
      if Balanced(entry, ratio, cap, stop, target) {
        Closer(entry, ratio, stop, target, requested, full);
      }
    }
  }

  /** Of two pairs in the same ratio, the one with the lower stop has the higher target. */
  lemma Closer(entry: real, ratio: real, stop: real, target: real, other: real, otherTarget: real)
    requires ratio > 0.0 && target - entry == Reward(ratio, entry - stop)
    requires otherTarget - entry == Reward(ratio, entry - other)
    ensures other <= stop <==> target <= otherTarget
  {
    ProductPositive(stop - other, ratio);
    ProductPositive(other - stop, ratio);
    assert otherTarget - target == (stop - other) * ratio;
  }
}

/** The outbox and the health counters together: a thread that refuses, drops, fails or retries an event owes the
    registry an update, and makes it in steps that other threads can interleave with. */
module TelemetryHealth {
  import TO = TelemetryOutbox
  import HC = HealthCounters

  const DROPS: HC.Counter := HC.DROPS
  const FAILURES: HC.Counter := "telemetry_write_failures"
  const SIDE_EFFECTS: HC.Counter := "non_critical_side_effect_failures"
  const RETRIES: HC.Counter := "sqlite_lock_retries"

  /** `owed[t]` is what thread t has done and not reported yet; `others` counts failures outside the outbox. */
  datatype State = State(box: TO.State, health: HC.State, owed: seq<HC.Metrics>, others: nat)

  /** The outbox acts on behalf of a thread; a notifier may fail; a thread reads or copies counters; a thread reports
      what it owes of the counters it has read. */
  datatype Action =
    | Act(thread: nat, act: TO.Action)
    | NotifierFails(thread: nat)
    | Observe(look: HC.Action)
    | Report(thread: nat)

  function Initial(bound: int, retries: int, threads: nat): State {
    State(TO.Initial(bound, retries), HC.Start, NoDebts(threads), 0)
  }

  function NoDebts(threads: nat): seq<HC.Metrics> {
    seq(threads, t => map[])
  }

  /** How often what the counter reports has happened. */
  function Due(box: TO.State, others: nat, c: HC.Counter): nat {
    if c == DROPS then |box.full| + |box.stopped|
    else if c == FAILURES then |box.failed|
    else if c == SIDE_EFFECTS then |box.failed| + others
    else if c == RETRIES then box.retried
    else 0
  }

  /** What one step of the outbox makes its thread owe. */
  function Debt(box: TO.State, act: TO.Action): HC.Metrics {
    match act
    case Offer(_) => if box.IsFull() then map[DROPS := 1] else map[]
    case Take => map[]
    case Attempt(i, outcome) =>
      if i >= |box.writers| || outcome.Inserted? then map[]
      else if outcome.Locked? && box.writers[i].attempts < box.retries then map[RETRIES := 1]
      else map[FAILURES := 1, SIDE_EFFECTS := 1]
    case Drop => if box.queue == [] then map[] else map[DROPS := 1]
  }

  function Plus(a: HC.Metrics, b: HC.Metrics): HC.Metrics {
    a + HC.Raised(b.Keys, a, b)
  }

  function Step(s: State, a: Action): State {
    match a
    case Act(t, act) =>
      if t < |s.owed| then
        s.(box := TO.Step(s.box, act), owed := s.owed[t := Plus(s.owed[t], Debt(s.box, act))])
      else s
    case NotifierFails(t) =>
      if t < |s.owed| then s.(others := s.others + 1, owed := s.owed[t := Plus(s.owed[t], map[SIDE_EFFECTS := 1])])
        else s
    case Observe(look) => if look.Commit? then s else s.(health := HC.Step(s.health, look))
    case Report(t) =>
      if t < |s.owed| then
        s.(health := HC.Step(s.health, HC.Commit(t, s.owed[t])),
          owed := s.owed[t := s.owed[t] - HC.Held(s.health, t).seen.Keys])
      else s
  }

  function Run(s: State, actions: seq<Action>): State {
    if actions == [] then s else Step(Run(s, actions[..|actions| - 1]), actions[|actions| - 1])
  }

  // ---------- every debt is on the books ----------

  function Owed(owed: seq<HC.Metrics>, c: HC.Counter): nat {
    if owed == [] then 0 else Owed(owed[..|owed| - 1], c) + HC.Get(owed[|owed| - 1], c)
  }

  lemma {:induction false} OwedReplaced(owed: seq<HC.Metrics>, t: nat, m: HC.Metrics, c: HC.Counter)
    requires t < |owed|
    ensures Owed(owed[t := m], c) + HC.Get(owed[t], c) == Owed(owed, c) + HC.Get(m, c)
  {
    var n := |owed| - 1;
    if t == n {
      assert owed[t := m][..n] == owed[..n];
    } else {
      OwedReplaced(owed[..n], t, m, c);
      assert owed[t := m][..n] == owed[..n][t := m];
    }
  }

  lemma PlusAdds(a: HC.Metrics, b: HC.Metrics, c: HC.Counter)
    ensures HC.Get(Plus(a, b), c) == HC.Get(a, c) + HC.Get(b, c)
  {
  }

  lemma DebtIsDue(box: TO.State, act: TO.Action, others: nat, c: HC.Counter)
    ensures Due(TO.Step(box, act), others, c) == Due(box, others, c) + HC.Get(Debt(box, act), c)
  {
  }

  /** What happened was reported or is still owed. */
  ghost predicate OnTheBooks(s: State, c: HC.Counter) {
    HC.Get(s.health.happened, c) + Owed(s.owed, c) == Due(s.box, s.others, c)
  }

  lemma LookingChangesNothing(h: HC.State, look: HC.Action)
    requires !look.Commit?
    ensures HC.Step(h, look).happened == h.happened && HC.Step(h, look).registry == h.registry
  {
  }

  lemma ReportMoves(h: HC.State, t: nat, owed: HC.Metrics, c: HC.Counter)
    ensures
      var seen := HC.Held(h, t).seen.Keys;
      HC.Get(HC.Step(h, HC.Commit(t, owed)).happened, c) + HC.Get(owed - seen, c) ==
        HC.Get(h.happened, c) + HC.Get(owed, c)
  {
  }

  lemma StepOnTheBooks(s: State, a: Action, c: HC.Counter)
    requires OnTheBooks(s, c)
    ensures OnTheBooks(Step(s, a), c)
  {
    match a
    case Act(t, act) =>
      if t < |s.owed| {
        DebtIsDue(s.box, act, s.others, c);
        PlusAdds(s.owed[t], Debt(s.box, act), c);
        OwedReplaced(s.owed, t, Plus(s.owed[t], Debt(s.box, act)), c);
      }
    case NotifierFails(t) =>
      if t < |s.owed| {
        PlusAdds(s.owed[t], map[SIDE_EFFECTS := 1], c);
        OwedReplaced(s.owed, t, Plus(s.owed[t], map[SIDE_EFFECTS := 1]), c);
      }
    case Observe(look) =>
      if !look.Commit? {
        LookingChangesNothing(s.health, look);
      }
    case Report(t) =>
      if t < |s.owed| {
        ReportMoves(s.health, t, s.owed[t], c);
        OwedReplaced(s.owed, t, s.owed[t] - HC.Held(s.health, t).seen.Keys, c);
      }
  }

  lemma {:induction false} NothingOwedAtFirst(threads: nat, c: HC.Counter)
    ensures Owed(NoDebts(threads), c) == 0
  {
    if threads > 0 {
      NothingOwedAtFirst(threads - 1, c);
      assert NoDebts(threads)[..threads - 1] == NoDebts(threads - 1);
    }
  }

  lemma {:induction false} RunOnTheBooks(bound: int, retries: int, threads: nat, actions: seq<Action>, c: HC.Counter)
    ensures OnTheBooks(Run(Initial(bound, retries, threads), actions), c)
  {
    if actions == [] {
      NothingOwedAtFirst(threads, c);
    } else {
      RunOnTheBooks(bound, retries, threads, actions[..|actions| - 1], c);
      StepOnTheBooks(Run(Initial(bound, retries, threads), actions[..|actions| - 1]), actions[|actions| - 1], c);
    }
  }

  // ---------- the parts of a run ----------

  /** What the threads that exist make the outbox do. */
  function Acts(threads: nat, actions: seq<Action>): seq<TO.Action> {
    if actions == [] then []
    else
      var rest, a := Acts(threads, actions[..|actions| - 1]), actions[|actions| - 1];
      if a.Act? && a.thread < threads then rest + [a.act] else rest
  }

  function Failures(threads: nat, actions: seq<Action>): nat {
    if actions == [] then 0
    else
      var a := actions[|actions| - 1];
      Failures(threads, actions[..|actions| - 1]) + if a.NotifierFails? && a.thread < threads then 1 else 0
  }

  lemma StepOnItsOwn(s: State, a: Action)
    ensures
      var s' := Step(s, a);
      && |s'.owed| == |s.owed|
      && s'.box == (if a.Act? && a.thread < |s.owed| then TO.Step(s.box, a.act) else s.box)
      && s'.others == s.others + (if a.NotifierFails? && a.thread < |s.owed| then 1 else 0)
  {
  }

  lemma OneMoreAct(box: TO.State, acts: seq<TO.Action>, act: TO.Action)
    ensures TO.Run(box, acts + [act]) == TO.Step(TO.Run(box, acts), act)
  {
    assert (acts + [act])[..|acts|] == acts;
  }

  /** However the reports interleave, the outbox of a joint run is the outbox run on its own, and the other failures are
      those of the notifiers. */
  lemma {:induction false} OutboxOnItsOwn(bound: int, retries: int, threads: nat, actions: seq<Action>)
    ensures
      var s := Run(Initial(bound, retries, threads), actions);
      && s.box == TO.Run(TO.Initial(bound, retries), Acts(threads, actions))
      && s.others == Failures(threads, actions) && |s.owed| == threads
  {
    if actions != [] {
      var init, a := actions[..|actions| - 1], actions[|actions| - 1];
      OutboxOnItsOwn(bound, retries, threads, init);
      StepOnItsOwn(Run(Initial(bound, retries, threads), init), a);
      if a.Act? {
        OneMoreAct(TO.Initial(bound, retries), Acts(threads, init), a.act);
      }
    }
  }

  /** A report is a commit of what the thread owes; looking is looking. */
  lemma RegistryMoves(s: State, a: Action)
    ensures Step(s, a).health ==
      if a.Report? && a.thread < |s.owed| then HC.Step(s.health, HC.Commit(a.thread, s.owed[a.thread]))
      else if a.Observe? && !a.look.Commit? then HC.Step(s.health, a.look) else s.health
  {
  }

  // ---------- what the registry says ----------

  lemma StepNeverOver(s: State, a: Action)
    requires HC.NeverOver(s.health)
    ensures HC.NeverOver(Step(s, a).health)
  {
    if a.Observe? {
      HC.StepNeverOver(s.health, a.look);
    } else if a.Report? && a.thread < |s.owed| {
      HC.StepNeverOver(s.health, HC.Commit(a.thread, s.owed[a.thread]));
    }
  }

  lemma {:induction false} RunNeverOver(bound: int, retries: int, threads: nat, actions: seq<Action>)
    ensures HC.NeverOver(Run(Initial(bound, retries, threads), actions).health)
  {
    if actions != [] {
      RunNeverOver(bound, retries, threads, actions[..|actions| - 1]);
      StepNeverOver(Run(Initial(bound, retries, threads), actions[..|actions| - 1]), actions[|actions| - 1]);
    }
  }

  /** In every interleaving the registry shows no more drops than events were refused or dropped, no more write
      failures than events failed, and no more lock retries than there were. */
  lemma RegistryNeverOverstates(bound: int, retries: int, threads: nat, actions: seq<Action>)
    ensures
      var s := Run(Initial(bound, retries, threads), actions);
      && HC.Get(s.health.registry, DROPS) <= |s.box.full| + |s.box.stopped|
      && HC.Get(s.health.registry, FAILURES) <= |s.box.failed|
      && HC.Get(s.health.registry, SIDE_EFFECTS) <= |s.box.failed| + s.others
      && HC.Get(s.health.registry, RETRIES) <= s.box.retried
  {
    var s := Run(Initial(bound, retries, threads), actions);
    RunNeverOver(bound, retries, threads, actions);
    RunOnTheBooks(bound, retries, threads, actions, DROPS);
    RunOnTheBooks(bound, retries, threads, actions, FAILURES);
    RunOnTheBooks(bound, retries, threads, actions, SIDE_EFFECTS);
    RunOnTheBooks(bound, retries, threads, actions, RETRIES);
    AtMostDue(s, DROPS);
    AtMostDue(s, FAILURES);
    AtMostDue(s, SIDE_EFFECTS);
    AtMostDue(s, RETRIES);
  }

  lemma AtMostDue(s: State, c: HC.Counter)
    requires HC.NeverOver(s.health) && OnTheBooks(s, c)
    ensures HC.Get(s.health.registry, c) <= Due(s.box, s.others, c)
  {
  }

  /** The registry shows every counter's whole due but for what is still owed. */
  ghost predicate Exact(s: State) {
    forall c :: HC.Get(s.health.registry, c) + Owed(s.owed, c) == Due(s.box, s.others, c)
  }

  ghost predicate AllOnTheBooks(s: State) {
    forall c :: OnTheBooks(s, c)
  }

  lemma ExactIsExact(s: State)
    requires AllOnTheBooks(s)
    ensures Exact(s) <==> HC.Exact(s.health)
  {
    if Exact(s) {
      forall c ensures HC.Get(s.health.registry, c) == HC.Get(s.health.happened, c) {
        assert OnTheBooks(s, c);
      }
    }
    if HC.Exact(s.health) {
      forall c ensures HC.Get(s.health.registry, c) + Owed(s.owed, c) == Due(s.box, s.others, c) {
        assert OnTheBooks(s, c);
      }
    }
  }

  /** A report overwrites nothing that another thread has reported since. */
  ghost predicate Clean(s: State, a: Action) {
    a.Report? && a.thread < |s.owed| ==> HC.UpToDate(s.health, a.thread)
  }

  lemma StepExactly(s: State, a: Action)
    requires AllOnTheBooks(s) && Exact(s)
    ensures Exact(Step(s, a)) <==> Clean(s, a)
  {
    ExactIsExact(s);
    forall c ensures OnTheBooks(Step(s, a), c) {
      assert OnTheBooks(s, c);
      StepOnTheBooks(s, a, c);
    }
    ExactIsExact(Step(s, a));
    if a.Observe? {
      HC.StepExactly(s.health, a.look);
    } else if a.Report? && a.thread < |s.owed| {
      HC.StepExactly(s.health, HC.Commit(a.thread, s.owed[a.thread]));
    }
  }

  /** The registry shows the drops, failures and retries of the outbox exactly, but for what a thread has yet to
      report, throughout a run if and only if no report of it overwrites another thread's. */
  lemma AlwaysExactExactly(bound: int, retries: int, threads: nat, actions: seq<Action>)
    ensures
      var start := Initial(bound, retries, threads);
      (forall n | 0 <= n <= |actions| :: Exact(Run(start, actions[..n]))) <==>
      (forall n | 0 <= n < |actions| :: Clean(Run(start, actions[..n]), actions[n]))
  {
    var start := Initial(bound, retries, threads);
    if forall n | 0 <= n <= |actions| :: Exact(Run(start, actions[..n])) {
      forall n | 0 <= n < |actions| ensures Clean(Run(start, actions[..n]), actions[n]) {
        assert Exact(Run(start, actions[..n])) && Exact(Run(start, actions[..n + 1]));
        NextExactly(bound, retries, threads, actions, n);
      }
    }
    if forall n | 0 <= n < |actions| :: Clean(Run(start, actions[..n]), actions[n]) {
      forall n | 0 <= n <= |actions| ensures Exact(Run(start, actions[..n])) {
        ExactThrough(bound, retries, threads, actions, n);
      }
    }
  }

  lemma NextExactly(bound: int, retries: int, threads: nat, actions: seq<Action>, n: nat)
    requires n < |actions| && Exact(Run(Initial(bound, retries, threads), actions[..n]))
    ensures
      var start := Initial(bound, retries, threads);
      Exact(Run(start, actions[..n + 1])) <==> Clean(Run(start, actions[..n]), actions[n])
  {
    var start := Initial(bound, retries, threads);
    assert actions[..n + 1][..n] == actions[..n];
    forall c ensures OnTheBooks(Run(start, actions[..n]), c) {
      RunOnTheBooks(bound, retries, threads, actions[..n], c);
    }
    StepExactly(Run(start, actions[..n]), actions[n]);
  }

  lemma {:induction false} ExactThrough(bound: int, retries: int, threads: nat, actions: seq<Action>, n: nat)
    requires n <= |actions|
    requires forall k | 0 <= k < n :: Clean(Run(Initial(bound, retries, threads), actions[..k]), actions[k])
    ensures Exact(Run(Initial(bound, retries, threads), actions[..n]))
  {
    if n == 0 {
      forall c ensures Owed(NoDebts(threads), c) == 0 {
        NothingOwedAtFirst(threads, c);
      }
      assert actions[..0] == [];
    } else {
      ExactThrough(bound, retries, threads, actions, n - 1);
      NextExactly(bound, retries, threads, actions, n - 1);
    }
  }
}

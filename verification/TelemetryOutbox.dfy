/** The bounded best-effort outbox: producers offer events without waiting, writer threads take them one at a time and
    retry on a locked store, and stopping drops what is left. Every event is accounted for. */
module TelemetryOutbox {
  datatype Event = Event(table: string, payload: string)

  datatype Outcome = Inserted | Locked | OtherError

  /** A writer thread at work. There can be more than one: stopping does not wait for ever, and starting again adds a
      thread. */
  datatype Writing = Writing(event: Event, attempts: nat)

  /** The queue and its writers, how often a write was tried again, and the fate of every event in order. */
  datatype State = State(
    bound: int, retries: int, queue: seq<Event>, writers: seq<Writing>, retried: nat,
    offered: seq<Event>, accepted: seq<Event>, taken: seq<Event>,
    written: seq<Event>, failed: seq<Event>, full: seq<Event>, stopped: seq<Event>)
  {
    predicate IsFull() {
      bound > 0 && |queue| >= bound
    }
  }

  datatype Action = Offer(event: Event) | Take | Attempt(writer: nat, outcome: Outcome) | Drop

  function Initial(bound: int, retries: int): State {
    State(bound, retries, [], [], 0, [], [], [], [], [], [], [])
  }

  function Offered(s: State, e: Event): State {
    var t := s.(offered := s.offered + [e]);
    if s.IsFull() then t.(full := s.full + [e])
    else t.(queue := s.queue + [e], accepted := s.accepted + [e])
  }

  function Taken(s: State): State {
    if s.queue == [] then s
    else s.(queue := s.queue[1..], taken := s.taken + [s.queue[0]], writers := s.writers + [Writing(s.queue[0], 0)])
  }

  function Without(ws: seq<Writing>, i: nat): seq<Writing>
    requires i < |ws|
  {
    ws[..i] + ws[i + 1..]
  }

  function Attempted(s: State, i: nat, outcome: Outcome): State
    requires i < |s.writers|
  {
    var w := s.writers[i];
    if outcome.Inserted? then s.(writers := Without(s.writers, i), written := s.written + [w.event])
    else if outcome.Locked? && w.attempts < s.retries then
      s.(writers := s.writers[i := Writing(w.event, w.attempts + 1)], retried := s.retried + 1)
    else s.(writers := Without(s.writers, i), failed := s.failed + [w.event])
  }

  /** A stop drops what is queued one event at a time; writers still at work may take some in between. */
  function Dropped(s: State): State {
    if s.queue == [] then s
    else s.(queue := s.queue[1..], taken := s.taken + [s.queue[0]], stopped := s.stopped + [s.queue[0]])
  }

  function Step(s: State, a: Action): State {
    match a
    case Offer(e) => Offered(s, e)
    case Take => Taken(s)
    case Attempt(i, outcome) => if i < |s.writers| then Attempted(s, i, outcome) else s
    case Drop => Dropped(s)
  }

  function Run(s: State, actions: seq<Action>): State {
    if actions == [] then s else Step(Run(s, actions[..|actions| - 1]), actions[|actions| - 1])
  }

  function Count(xs: seq<Event>, e: Event): nat {
    if xs == [] then 0 else Count(xs[..|xs| - 1], e) + if xs[|xs| - 1] == e then 1 else 0
  }

  /** How many writers are at work on the event. */
  function Busy(ws: seq<Writing>, e: Event): nat {
    if ws == [] then 0 else Busy(ws[..|ws| - 1], e) + if ws[|ws| - 1].event == e then 1 else 0
  }

  function MaxRetries(s: State): nat {
    if s.retries > 0 then s.retries else 0
  }

  /** Every offer was accepted or refused for want of room. */
  ghost predicate Admitted(s: State, e: Event) {
    Count(s.offered, e) == Count(s.accepted, e) + Count(s.full, e)
  }

  /** Accepted events leave the queue in the order they came. */
  ghost predicate InSequence(s: State) {
    s.accepted == s.taken + s.queue
  }

  /** Each event that left is being written, was written, failed or was dropped at a stop. */
  ghost predicate Settled(s: State, e: Event) {
    Count(s.taken, e) == Busy(s.writers, e) + Count(s.written, e) + Count(s.failed, e) + Count(s.stopped, e)
  }

  /** The queue keeps its bound and no writer tries too often. */
  ghost predicate Bounded(s: State) {
    && (s.bound > 0 ==> |s.queue| <= s.bound)
    && (forall w | w in s.writers :: w.attempts <= MaxRetries(s))
  }

  ghost predicate Accounted(s: State) {
    InSequence(s) && Bounded(s) && forall e :: Admitted(s, e) && Settled(s, e)
  }

  lemma {:induction false} CountAppend(xs: seq<Event>, ys: seq<Event>, e: Event)
    ensures Count(xs + ys, e) == Count(xs, e) + Count(ys, e)
  {
    var all := xs + ys;
    if ys == [] {
      assert all == xs;
    } else {
      CountAppend(xs, ys[..|ys| - 1], e);
      assert all[..|all| - 1] == xs + ys[..|ys| - 1];
    }
  }

  lemma {:induction false} BusyWithout(ws: seq<Writing>, i: nat, e: Event)
    requires i < |ws|
    ensures Busy(ws, e) == Busy(Without(ws, i), e) + if ws[i].event == e then 1 else 0
  {
    var n := |ws|;
    if i == n - 1 {
      assert Without(ws, i) == ws[..n - 1];
    } else {
      BusyWithout(ws[..n - 1], i, e);
      assert Without(ws, i)[..n - 2] == Without(ws[..n - 1], i);
      assert Without(ws, i)[n - 2] == ws[n - 1];
    }
  }

  lemma BusyReplaced(ws: seq<Writing>, i: nat, attempts: nat, e: Event)
    requires i < |ws|
    ensures Busy(ws[i := Writing(ws[i].event, attempts)], e) == Busy(ws, e)
  {
    var ws' := ws[i := Writing(ws[i].event, attempts)];
    BusyWithout(ws, i, e);
    BusyWithout(ws', i, e);
    assert Without(ws', i) == Without(ws, i);
  }

  lemma OfferAdmits(s: State, offered: Event, e: Event)
    requires Admitted(s, e)
    ensures Admitted(Offered(s, offered), e)
  {
    CountAppend(s.offered, [offered], e);
    if s.IsFull() {
      CountAppend(s.full, [offered], e);
    } else {
      CountAppend(s.accepted, [offered], e);
    }
  }

  lemma StepAdmits(s: State, a: Action, e: Event)
    requires Admitted(s, e)
    ensures Admitted(Step(s, a), e)
  {
    if a.Offer? {
      OfferAdmits(s, a.event, e);
    } else {
      assert Step(s, a).offered == s.offered && Step(s, a).accepted == s.accepted && Step(s, a).full == s.full;
    }
  }

  lemma StepInSequence(s: State, a: Action)
    requires InSequence(s)
    ensures InSequence(Step(s, a))
  {
    match a
    case Offer(e) => assert s.accepted + [e] == s.taken + (s.queue + [e]);
    case Take => assert s.queue != [] ==> s.taken + s.queue == (s.taken + [s.queue[0]]) + s.queue[1..];
    case Attempt(i, outcome) =>
    case Drop => assert s.queue != [] ==> s.taken + s.queue == (s.taken + [s.queue[0]]) + s.queue[1..];
  }

  lemma TakeSettles(s: State, e: Event)
    requires Settled(s, e) && s.queue != []
    ensures Settled(Taken(s), e)
  {
    CountAppend(s.taken, [s.queue[0]], e);
    assert (s.writers + [Writing(s.queue[0], 0)])[..|s.writers|] == s.writers;
  }

  lemma AttemptSettles(s: State, i: nat, outcome: Outcome, e: Event)
    requires Settled(s, e) && i < |s.writers|
    ensures Settled(Attempted(s, i, outcome), e)
  {
    var w := s.writers[i];
    BusyWithout(s.writers, i, e);
    if outcome.Inserted? {
      CountAppend(s.written, [w.event], e);
    } else if outcome.Locked? && w.attempts < s.retries {
      BusyReplaced(s.writers, i, w.attempts + 1, e);
    } else {
      CountAppend(s.failed, [w.event], e);
    }
  }

  lemma DropSettles(s: State, e: Event)
    requires Settled(s, e) && s.queue != []
    ensures Settled(Dropped(s), e)
  {
    CountAppend(s.taken, [s.queue[0]], e);
    CountAppend(s.stopped, [s.queue[0]], e);
  }

  lemma StepSettles(s: State, a: Action, e: Event)
    requires Settled(s, e)
    ensures Settled(Step(s, a), e)
  {
    match a
    case Offer(_) =>
    case Take =>
      if s.queue != [] {
        TakeSettles(s, e);
      }
    case Attempt(i, outcome) =>
      if i < |s.writers| {
        AttemptSettles(s, i, outcome, e);
      }
    case Drop =>
      if s.queue != [] {
        DropSettles(s, e);
      }
  }

  lemma StepBounds(s: State, a: Action)
    requires Bounded(s)
    ensures Bounded(Step(s, a))
  {
    if a.Attempt? && a.writer < |s.writers| {
      var w := s.writers[a.writer];
      assert w in s.writers;
      assert forall x | x in Step(s, a).writers :: x in s.writers || x == Writing(w.event, w.attempts + 1);
    }
  }

  lemma StepAccounts(s: State, a: Action)
    requires Accounted(s)
    ensures Accounted(Step(s, a))
  {
    StepInSequence(s, a);
    StepBounds(s, a);
    forall e ensures Admitted(Step(s, a), e) && Settled(Step(s, a), e) {
      StepAdmits(s, a, e);
      StepSettles(s, a, e);
    }
  }

  lemma {:induction false} RunAccounts(s: State, actions: seq<Action>)
    requires Accounted(s)
    ensures Accounted(Run(s, actions)) && Run(s, actions).bound == s.bound
  {
    if actions != [] {
      RunAccounts(s, actions[..|actions| - 1]);
      StepAccounts(Run(s, actions[..|actions| - 1]), actions[|actions| - 1]);
    }
  }

  /** In every interleaving of producers, writers and stops, each event offered was written, failed, was refused, was
      dropped at a stop, is queued or is being written: nothing is lost and nothing is counted twice. */
  lemma EveryEventAccounted(bound: int, retries: int, actions: seq<Action>, e: Event)
    ensures
      var s := Run(Initial(bound, retries), actions);
      && Count(s.offered, e) == Count(s.written, e) + Count(s.failed, e) + Count(s.full, e) + Count(s.stopped, e)
                              + Count(s.queue, e) + Busy(s.writers, e)
      && s.accepted == s.taken + s.queue
      && (bound > 0 ==> |s.queue| <= bound)
  {
    RunAccounts(Initial(bound, retries), actions);
    var s := Run(Initial(bound, retries), actions);
    assert Admitted(s, e) && Settled(s, e);
    CountAppend(s.taken, s.queue, e);
  }

  // ---------- which offers are refused ----------

  /** The n-th action offers an event while a positive bound of them is queued. */
  ghost predicate RefusedAt(start: State, actions: seq<Action>, n: nat)
    requires n < |actions|
  {
    actions[n].Offer? && start.bound > 0 && |Run(start, actions[..n]).queue| == start.bound
  }

  ghost predicate AdmittedAt(start: State, actions: seq<Action>, n: nat)
    requires n < |actions|
  {
    actions[n].Offer? && (start.bound <= 0 || |Run(start, actions[..n]).queue| < start.bound)
  }

  /** An offer is refused if and only if the bound is positive and exactly that many events are queued; otherwise it
      goes to the end of the queue. Nothing but an offer is refused. */
  lemma RefusedExactly(bound: int, retries: int, actions: seq<Action>, n: nat)
    requires n < |actions|
    ensures
      var start := Initial(bound, retries);
      var s, s' := Run(start, actions[..n]), Run(start, actions[..n + 1]);
      && (RefusedAt(start, actions, n) ==>
            s'.full == s.full + [actions[n].event] && s'.queue == s.queue && s'.accepted == s.accepted)
      && (AdmittedAt(start, actions, n) ==>
            s'.full == s.full && s'.queue == s.queue + [actions[n].event] &&
              s'.accepted == s.accepted + [actions[n].event])
      && (actions[n].Offer? ==> RefusedAt(start, actions, n) != AdmittedAt(start, actions, n))
      && (!actions[n].Offer? ==> s'.full == s.full && s'.accepted == s.accepted && s'.offered == s.offered)
  {
    var start := Initial(bound, retries);
    RunAccounts(start, actions[..n]);
    assert actions[..n + 1][..n] == actions[..n];
  }

  /** So a run whose queue never holds its whole bound at an offer, or that has no bound, refuses nothing. */
  lemma {:induction false} RoomyRunRefusesNothing(bound: int, retries: int, actions: seq<Action>)
    requires forall n | 0 <= n < |actions| :: !RefusedAt(Initial(bound, retries), actions, n)
    ensures Run(Initial(bound, retries), actions).full == []
  {
    if actions != [] {
      var start, init := Initial(bound, retries), actions[..|actions| - 1];
      forall n | 0 <= n < |init| ensures !RefusedAt(start, init, n) {
        assert init[..n] == actions[..n];
        assert !RefusedAt(start, actions, n);
      }
      RoomyRunRefusesNothing(bound, retries, init);
      RefusedExactly(bound, retries, actions, |init|);
      assert actions[..|actions|] == actions;
    }
  }

  // ---------- the service ----------

  /** The service as one thread at a time uses it; what several threads do to the counters is told in
      `TelemetryHealth`. */
  class Outbox {
    const bound: int
    const retries: int
    var queue: seq<Event>
    var drops: nat
    var failures: nat
    var lockRetries: nat
    var backlog: nat
    /** The protocol state this service has reached. */
    ghost var ledger: State

    ghost predicate Tracks() reads this {
      && ledger.bound == bound && ledger.retries == retries && ledger.queue == queue
      && drops == |ledger.full| + |ledger.stopped| && failures == |ledger.failed| && lockRetries == ledger.retried
    }

    ghost predicate Valid() reads this {
      Tracks() && Accounted(ledger) && ledger.writers == [] && backlog == |queue|
    }

    constructor (bound: int, retries: int)
      ensures Valid() && ledger == Initial(bound, retries)
    {
      this.bound, this.retries := bound, retries;
      queue, drops, failures, lockRetries, backlog := [], 0, 0, 0, 0;
      ledger := Initial(bound, retries);
    }

    method EnqueueBestEffort(e: Event)
      requires Valid()
      modifies this
      ensures Valid() && ledger == Step(old(ledger), Offer(e))
      ensures
        if bound <= 0 || |old(queue)| < bound then queue == old(queue) + [e] && drops == old(drops)
        else queue == old(queue) && drops == old(drops) + 1
      ensures (failures, lockRetries) == (old(failures), old(lockRetries))
    {
      StepAccounts(ledger, Offer(e));
      ledger := Step(ledger, Offer(e));
      if bound > 0 && |queue| >= bound {
        drops := drops + 1;
        backlog := |queue|;
        return;
      }
      queue := queue + [e];
      backlog := |queue|;
    }

    /** Tries until the store takes the event, refuses it for good, or has been locked once more than the retries
        allow. `store(k)` is what the store does on the k-th try. */
    method WriteTelemetryEvent(e: Event, store: nat -> Outcome) returns (ok: bool, tries: nat)
      requires Tracks() && Accounted(ledger) && ledger.writers == [Writing(e, 0)]
      modifies this`failures, this`lockRetries, this`ledger
      ensures Tracks() && Accounted(ledger)
      ensures 1 <= tries <= MaxRetries(ledger) + 1 && forall k | 0 <= k < tries - 1 :: store(k) == Locked
      ensures ok <==> store(tries - 1) == Inserted
      ensures !ok ==> store(tries - 1) == OtherError || tries == MaxRetries(ledger) + 1
      ensures
        var l := old(ledger);
        ledger == l.(writers := [], retried := l.retried + tries - 1,
                     written := if ok then l.written + [e] else l.written,
                     failed := if ok then l.failed else l.failed + [e])
    {
      var attempts: nat := 0;
      while true
        invariant Tracks() && Accounted(ledger) && attempts <= MaxRetries(ledger)
        invariant ledger == old(ledger).(writers := [Writing(e, attempts)], retried := old(ledger).retried + attempts)
        invariant forall k | 0 <= k < attempts :: store(k) == Locked
        modifies this`failures, this`lockRetries, this`ledger
        decreases MaxRetries(ledger) - attempts
      {
        var outcome := store(attempts);
        StepAccounts(ledger, Attempt(0, outcome));
        ledger := Step(ledger, Attempt(0, outcome));
        if outcome.Inserted? {
          return true, attempts + 1;
        }
        if !outcome.Locked? || attempts >= retries {
          failures := failures + 1;
          return false, attempts + 1;
        }
        attempts := attempts + 1;
        lockRetries := lockRetries + 1;
      }
    }

    method DrainTelemetryOnce(store: nat -> Outcome) returns (drained: bool)
      requires Valid()
      modifies this
      ensures Valid() && drained == (old(queue) != [])
      ensures !drained ==> ledger == old(ledger)
      ensures drained ==>
        var l, e := old(ledger), old(queue)[0];
        && queue == old(queue)[1..] && ledger.taken == l.taken + [e]
        && (ledger.written, ledger.failed) ==
             (if StoreTakes(store, MaxRetries(l)) then (l.written + [e], l.failed) else (l.written, l.failed + [e]))
        && (ledger.offered, ledger.accepted, ledger.full, ledger.stopped) == (l.offered, l.accepted, l.full, l.stopped)
    {
      if queue == [] {
        backlog := 0;
        return false;
      }
      var e := queue[0];
      StepAccounts(ledger, Take);
      ledger := Step(ledger, Take);
      queue := queue[1..];
      var ok, tries := WriteTelemetryEvent(e, store);
      assert ok ==> StoreTakes(store, MaxRetries(ledger)) by {
        if ok {
          assert TakenAt(store, tries - 1);
        }
      }
      backlog := |queue|;
      drained := true;
    }

    method Stop()
      requires Valid()
      modifies this
      ensures Valid() && queue == [] && drops == old(drops) + |old(queue)|
      ensures
        var l := old(ledger);
        ledger == l.(queue := [], taken := l.taken + l.queue, stopped := l.stopped + l.queue)
    {
      var dropped: nat := 0;
      ghost var l := ledger;
      while queue != []
        invariant dropped <= |l.queue| && queue == l.queue[dropped..] && Accounted(ledger)
        invariant ledger ==
          l.(queue := queue, taken := l.taken + l.queue[..dropped], stopped := l.stopped + l.queue[..dropped])
        modifies this`queue, this`ledger
        decreases |queue|
      {
        StepAccounts(ledger, Drop);
        ledger := Step(ledger, Drop);
        assert l.queue[..dropped + 1] == l.queue[..dropped] + [queue[0]];
        queue := queue[1..];
        dropped := dropped + 1;
      }
      assert l.queue[..dropped] == l.queue;
      if dropped > 0 {
        drops := drops + dropped;
      }
      backlog := |queue|;
    }
  }

  /** The store takes the event on the k-th try, having been locked on all before. */
  ghost predicate TakenAt(store: nat -> Outcome, k: nat) {
    store(k) == Inserted && forall j | 0 <= j < k :: store(j) == Locked
  }

  ghost predicate StoreTakes(store: nat -> Outcome, retries: nat) {
    exists k | 0 <= k <= retries :: TakenAt(store, k)
  }
}

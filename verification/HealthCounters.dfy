/** The health counters are updated by several threads without a lock: a thread reads the counters it will raise,
    copies all metrics, and then replaces them. What the counters can and cannot say after any interleaving. */
module HealthCounters {
  type Counter = string

  type Metrics = map<Counter, nat>

  function Get(m: Metrics, c: Counter): nat {
    if c in m then m[c] else 0
  }

  /** What a thread holds between its reads and its commit: the counters it will raise, as read, and the copied
      metrics. */
  datatype Local = Local(seen: Metrics, copy: Metrics)

  /** `happened` counts what the committed updates report. */
  datatype State = State(registry: Metrics, happened: Metrics, threads: map<nat, Local>)

  /** Setting a single metric copies all metrics twice: the second copy only adds what the first did not have. */
  datatype Action =
    | Begin(thread: nat)
    | Read(thread: nat, counter: Counter)
    | Copy(thread: nat)
    | CopyAgain(thread: nat)
    | Commit(thread: nat, amounts: Metrics)

  const Start: State := State(map[], map[], map[])

  function Held(s: State, thread: nat): Local {
    if thread in s.threads then s.threads[thread] else Local(map[], map[])
  }

  /** The counters of `keys`, each `base` plus what is reported of it. */
  function Raised(keys: set<Counter>, base: Metrics, amounts: Metrics): Metrics {
    map c | c in keys :: Get(base, c) + Get(amounts, c)
  }

  function Step(s: State, a: Action): State {
    var l := Held(s, a.thread);
    match a
    case Begin(t) => s.(threads := s.threads[t := Local(map[], map[])])
    case Read(t, c) => s.(threads := s.threads[t := l.(seen := l.seen[c := Get(s.registry, c)])])
    case Copy(t) => s.(threads := s.threads[t := l.(copy := s.registry)])
    case CopyAgain(t) => s.(threads := s.threads[t := l.(copy := s.registry + l.copy)])
    case Commit(t, amounts) =>
      s.(registry := l.copy + Raised(l.seen.Keys, l.seen, amounts),
         happened := s.happened + Raised(l.seen.Keys, s.happened, amounts))
  }

  function Run(s: State, actions: seq<Action>): State {
    if actions == [] then s else Step(Run(s, actions[..|actions| - 1]), actions[|actions| - 1])
  }

  // ---------- never too much ----------

  ghost predicate AtMost(m: Metrics, n: Metrics) {
    forall c :: Get(m, c) <= Get(n, c)
  }

  ghost predicate NeverOver(s: State) {
    && AtMost(s.registry, s.happened)
    && forall t | t in s.threads ::
         AtMost(s.threads[t].copy, s.happened) && AtMost(s.threads[t].seen, s.happened)
  }

  lemma RaisedAlike(copy: Metrics, seen: Metrics, happened: Metrics, amounts: Metrics)
    requires AtMost(copy, happened) && AtMost(seen, happened)
    ensures AtMost(copy + Raised(seen.Keys, seen, amounts), happened + Raised(seen.Keys, happened, amounts))
    ensures AtMost(happened, happened + Raised(seen.Keys, happened, amounts))
  {
    forall c
      ensures Get(copy + Raised(seen.Keys, seen, amounts), c) <= Get(happened + Raised(seen.Keys, happened, amounts), c)
      ensures Get(happened, c) <= Get(happened + Raised(seen.Keys, happened, amounts), c)
    {
      assert Get(copy, c) <= Get(happened, c) && Get(seen, c) <= Get(happened, c);
    }
  }

  lemma AtMostTwice(a: Metrics, b: Metrics, c: Metrics)
    requires AtMost(a, b) && AtMost(b, c)
    ensures AtMost(a, c)
  {
    forall k ensures Get(a, k) <= Get(c, k) {
      assert Get(a, k) <= Get(b, k) <= Get(c, k);
    }
  }

  lemma CommitNeverOver(s: State, t: nat, amounts: Metrics)
    requires NeverOver(s)
    ensures NeverOver(Step(s, Commit(t, amounts)))
  {
    var s', l := Step(s, Commit(t, amounts)), Held(s, t);
    assert AtMost(l.copy, s.happened) && AtMost(l.seen, s.happened);
    RaisedAlike(l.copy, l.seen, s.happened, amounts);
    forall u | u in s.threads ensures AtMost(s.threads[u].copy, s'.happened) && AtMost(s.threads[u].seen, s'.happened) {
      AtMostTwice(s.threads[u].copy, s.happened, s'.happened);
      AtMostTwice(s.threads[u].seen, s.happened, s'.happened);
    }
  }

  lemma StepNeverOver(s: State, a: Action)
    requires NeverOver(s)
    ensures NeverOver(Step(s, a))
  {
    var l := Held(s, a.thread);
    assert AtMost(l.copy, s.happened) && AtMost(l.seen, s.happened);
    match a
    case Commit(t, amounts) => CommitNeverOver(s, t, amounts);
    case CopyAgain(t) => LookNeverOver(s, t, l.(copy := s.registry + l.copy));
    case Read(t, c) => LookNeverOver(s, t, l.(seen := l.seen[c := Get(s.registry, c)]));
    case Copy(t) => LookNeverOver(s, t, l.(copy := s.registry));
    case Begin(t) => LookNeverOver(s, t, Local(map[], map[]));
  }

  lemma LookNeverOver(s: State, t: nat, l: Local)
    requires NeverOver(s) && AtMost(l.copy, s.happened) && AtMost(l.seen, s.happened)
    ensures NeverOver(s.(threads := s.threads[t := l]))
  {
  }

  /** However the threads interleave, no counter ever shows more than happened. */
  lemma {:induction false} CountersNeverOverstate(actions: seq<Action>)
    ensures NeverOver(Run(Start, actions))
  {
    if actions != [] {
      CountersNeverOverstate(actions[..|actions| - 1]);
      StepNeverOver(Run(Start, actions[..|actions| - 1]), actions[|actions| - 1]);
    }
  }

  // ---------- exactly how much ----------

  ghost predicate Exact(s: State) {
    forall c :: Get(s.registry, c) == Get(s.happened, c)
  }

  /** Of what the thread is about to write, nothing has been replaced since it was read. */
  ghost predicate UpToDate(s: State, thread: nat) {
    var l := Held(s, thread);
    forall c :: Get(if c in l.seen then l.seen else l.copy, c) == Get(s.registry, c)
  }

  /** A commit keeps exact counters exact if and only if it is up to date; nothing else a thread does matters. */
  lemma StepExactly(s: State, a: Action)
    requires Exact(s)
    ensures Exact(Step(s, a)) <==> (a.Commit? ==> UpToDate(s, a.thread))
  {
    if a.Commit? {
      var l, s' := Held(s, a.thread), Step(s, a);
      forall c
        ensures Get(s'.registry, c) == Get(s'.happened, c)
                <==> Get(if c in l.seen then l.seen else l.copy, c) == Get(s.registry, c)
      {
        assert Get(s.registry, c) == Get(s.happened, c);
      }
    }
  }

  ghost predicate Undisturbed(actions: seq<Action>) {
    forall n | 0 <= n < |actions| && actions[n].Commit? :: UpToDate(Run(Start, actions[..n]), actions[n].thread)
  }

  ghost predicate AlwaysExact(actions: seq<Action>) {
    forall n | 0 <= n <= |actions| :: Exact(Run(Start, actions[..n]))
  }

  lemma RunOneMore(actions: seq<Action>, n: nat)
    requires n < |actions|
    ensures Run(Start, actions[..n + 1]) == Step(Run(Start, actions[..n]), actions[n])
  {
    assert actions[..n + 1][..n] == actions[..n];
  }

  /** The counters are exact throughout a run if and only if no commit of it overwrites another thread's. */
  lemma AlwaysExactExactly(actions: seq<Action>)
    ensures AlwaysExact(actions) <==> Undisturbed(actions)
  {
    if AlwaysExact(actions) {
      forall n | 0 <= n < |actions| && actions[n].Commit?
        ensures UpToDate(Run(Start, actions[..n]), actions[n].thread) {
        RunOneMore(actions, n);
        StepExactly(Run(Start, actions[..n]), actions[n]);
        assert Exact(Run(Start, actions[..n])) && Exact(Run(Start, actions[..n + 1]));
      }
    }
    if Undisturbed(actions) {
      forall n | 0 <= n <= |actions| ensures Exact(Run(Start, actions[..n])) {
        ExactThrough(actions, n);
      }
    }
  }

  lemma {:induction false} ExactThrough(actions: seq<Action>, n: nat)
    requires Undisturbed(actions) && n <= |actions|
    ensures Exact(Run(Start, actions[..n]))
  {
    if n == 0 {
      assert actions[..0] == [];
    } else {
      ExactThrough(actions, n - 1);
      NextExact(actions, n - 1);
    }
  }

  lemma NextExact(actions: seq<Action>, n: nat)
    requires Undisturbed(actions) && n < |actions| && Exact(Run(Start, actions[..n]))
    ensures Exact(Run(Start, actions[..n + 1]))
  {
    RunOneMore(actions, n);
    StepExactly(Run(Start, actions[..n]), actions[n]);
  }

  // ---------- one thread alone ----------

  /** A thread that nobody interrupts raises the counter it read by what it reports, and changes no other; copying a
      second time on the way makes no difference. */
  lemma AloneCounts(s: State, t: nat, c: Counter, n: nat, other: Counter)
    ensures
      var copied := Step(Step(Step(s, Begin(t)), Read(t, c)), Copy(t));
      var s' := Step(copied, Commit(t, map[c := n]));
      && Get(s'.registry, other) == Get(s.registry, other) + (if other == c then n else 0)
      && Get(s'.happened, other) == Get(s.happened, other) + (if other == c then n else 0)
      && Step(Step(copied, CopyAgain(t)), Commit(t, map[c := n])).registry == s'.registry
  {
    var begun := Step(s, Begin(t));
    var read := Step(begun, Read(t, c));
    var copied := Step(read, Copy(t));
    assert Held(begun, t) == Local(map[], map[]);
    assert Held(read, t) == Local(map[c := Get(s.registry, c)], map[]);
    assert Held(copied, t) == Local(map[c := Get(s.registry, c)], s.registry);
    assert s.registry + s.registry == s.registry;
    assert Held(Step(copied, CopyAgain(t)), t) == Held(copied, t);
  }

  /** A second copy keeps what the first holds and adds the counters it lacks. */
  lemma CopyAgainExactly(s: State, t: nat, c: Counter)
    ensures
      var l, l' := Held(s, t), Held(Step(s, CopyAgain(t)), t);
      && l'.seen == l.seen && Get(l'.copy, c) == (if c in l.copy then l.copy[c] else Get(s.registry, c))
      && (c in l'.copy <==> c in l.copy || c in s.registry)
  {
  }

  // ---------- a lost update ----------

  const DROPS: Counter := "telemetry_queue_drops"

  /** The writer starts to update the backlog. */
  function BacklogCopied(s: State): State {
    Step(Step(s, Begin(1)), Copy(1))
  }

  /** A producer starts to count a drop. */
  function DropRead(s: State): State {
    Step(Step(s, Read(0, DROPS)), Copy(0))
  }

  lemma BacklogCopiedIs(s: State)
    ensures BacklogCopied(s) == s.(threads := s.threads[1 := Local(map[], s.registry)])
  {
    var s1 := Step(s, Begin(1));
    assert Held(s1, 1) == Local(map[], map[]);
  }

  lemma DropReadIs(s: State)
    ensures DropRead(s).registry == s.registry && DropRead(s).happened == s.happened
    ensures Held(DropRead(s), 1) == Held(s, 1)
    ensures DROPS in Held(DropRead(s), 0).seen
  {
    var s1 := Step(s, Read(0, DROPS));
    assert DROPS in Held(s1, 0).seen && Held(s1, 1) == Held(s, 1);
  }

  lemma DropCommitted(s: State)
    requires DROPS in Held(s, 0).seen
    ensures
      var s' := Step(s, Commit(0, map[DROPS := 1]));
      Get(s'.happened, DROPS) == Get(s.happened, DROPS) + 1 && Held(s', 1) == Held(s, 1)
  {
  }

  lemma BacklogCommitted(s: State, copy: Metrics)
    requires Held(s, 1) == Local(map[], copy)
    ensures
      var s' := Step(s, Commit(1, map[]));
      Get(s'.registry, DROPS) == Get(copy, DROPS) && Get(s'.happened, DROPS) == Get(s.happened, DROPS)
  {
  }

  /** From every state: a drop that a producer counts disappears when the writer then commits a backlog it copied
      before. */
  lemma DropDisappears(s: State)
    ensures
      var s' := Step(Step(DropRead(BacklogCopied(s)), Commit(0, map[DROPS := 1])), Commit(1, map[]));
      Get(s'.registry, DROPS) == Get(s.registry, DROPS) && Get(s'.happened, DROPS) == Get(s.happened, DROPS) + 1
  {
    var s2 := BacklogCopied(s);
    BacklogCopiedIs(s);
    var s4 := DropRead(s2);
    DropReadIs(s2);
    var s5 := Step(s4, Commit(0, map[DROPS := 1]));
    DropCommitted(s4);
    BacklogCommitted(s5, s.registry);
  }
}

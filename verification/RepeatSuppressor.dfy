/** Identical records within a time-to-live are suppressed. The table behind it is pruned when it grows; nobody can
    tell. */
module RepeatSuppressor {
  const TTL: real := 60.0
  const PRUNE_ABOVE: nat := 4096

  type Key = string

  datatype Call = Call(key: Key, now: real)

  type Table = map<Key, real>

  function Suppresses(table: Table, c: Call): bool {
    c.key in table && c.now - table[c.key] < TTL
  }

  function Pruned(table: Table, now: real): Table {
    if |table| > PRUNE_ABOVE then map k | k in table && table[k] >= now - TTL :: table[k] else table
  }

  function Recorded(table: Table, c: Call): Table {
    if Suppresses(table, c) then table else Pruned(table, c.now)[c.key := c.now]
  }

  /** The table after a run of calls, and the table that would never have been pruned. */
  function After(calls: seq<Call>): Table {
    if calls == [] then map[] else Recorded(After(calls[..|calls| - 1]), calls[|calls| - 1])
  }

  function UnprunedAfter(calls: seq<Call>): Table {
    if calls == [] then map[]
    else
      var table, c := UnprunedAfter(calls[..|calls| - 1]), calls[|calls| - 1];
      if Suppresses(table, c) then table else table[c.key := c.now]
  }

  ghost predicate NonDecreasing(calls: seq<Call>) {
    forall i, j | 0 <= i < j < |calls| :: calls[i].now <= calls[j].now
  }

  /** Told from the history alone: a call passes unless an equal one passed within the time-to-live. */
  ghost predicate Passes(calls: seq<Call>, n: nat)
    requires n < |calls|
    decreases n
  {
    forall j | 0 <= j < n && calls[j].key == calls[n].key && calls[n].now - calls[j].now < TTL :: !Passes(calls, j)
  }

  lemma {:induction false} PassesPrefix(calls: seq<Call>, m: nat, n: nat)
    requires n < m <= |calls|
    ensures Passes(calls[..m], n) == Passes(calls, n)
    decreases n
  {
    forall j | 0 <= j < n ensures Passes(calls[..m], j) == Passes(calls, j) {
      PassesPrefix(calls, m, j);
    }
  }

  /** The key's entry is a pass of it. */
  ghost predicate HoldsPass(calls: seq<Call>, key: Key, now: real) {
    exists i :: 0 <= i < |calls| && calls[i] == Call(key, now) && Passes(calls, i)
  }

  /** A table holds the latest pass of a key, or has forgotten it after it can no longer matter. */
  ghost predicate Remembers(table: Table, calls: seq<Call>, now: real) {
    && (forall k | k in table :: HoldsPass(calls, k, table[k]))
    && (forall i | 0 <= i < |calls| && Passes(calls, i) ::
          if calls[i].key in table then calls[i].now <= table[calls[i].key] else calls[i].now < now - TTL)
  }

  lemma RemembersDecides(table: Table, calls: seq<Call>, c: Call)
    requires Remembers(table, calls, c.now) && NonDecreasing(calls + [c])
    ensures Suppresses(table, c) <==> !Passes(calls + [c], |calls|)
  {
    var all := calls + [c];
    OneMore(calls, c);
    if Suppresses(table, c) {
      var i :| 0 <= i < |calls| && calls[i] == Call(c.key, table[c.key]) && Passes(calls, i);
      assert Passes(all, i) && all[i].key == all[|calls|].key;
    } else {
      forall i | 0 <= i < |calls| && all[i].key == c.key && c.now - all[i].now < TTL ensures !Passes(all, i) {
        assert Passes(calls, i) == Passes(all, i);
      }
    }
  }

  lemma OneMore(calls: seq<Call>, c: Call)
    ensures forall i | 0 <= i < |calls| :: (calls + [c])[i] == calls[i] && Passes(calls + [c], i) == Passes(calls, i)
    ensures (calls + [c])[|calls|] == c
  {
    assert (calls + [c])[..|calls|] == calls;
    forall i | 0 <= i < |calls| ensures Passes(calls + [c], i) == Passes(calls, i) {
      PassesPrefix(calls + [c], |calls|, i);
    }
  }

  lemma HoldsPassStays(calls: seq<Call>, c: Call, key: Key, now: real)
    requires HoldsPass(calls, key, now)
    ensures HoldsPass(calls + [c], key, now)
  {
    OneMore(calls, c);
    var i :| 0 <= i < |calls| && calls[i] == Call(key, now) && Passes(calls, i);
    assert (calls + [c])[i] == Call(key, now);
  }

  lemma SuppressedRemembers(table: Table, calls: seq<Call>, c: Call, later: real)
    requires Remembers(table, calls, c.now) && NonDecreasing(calls + [c]) && c.now <= later && Suppresses(table, c)
    ensures Remembers(table, calls + [c], later)
  {
    OneMore(calls, c);
    RemembersDecides(table, calls, c);
    forall k | k in table ensures HoldsPass(calls + [c], k, table[k]) {
      HoldsPassStays(calls, c, k, table[k]);
    }
  }

  lemma PassedRemembers(table: Table, calls: seq<Call>, c: Call, pruned: Table, later: real)
    requires Remembers(table, calls, c.now) && NonDecreasing(calls + [c]) && c.now <= later && !Suppresses(table, c)
    requires pruned == table || pruned == Pruned(table, c.now)
    ensures Remembers(pruned[c.key := c.now], calls + [c], later)
  {
    OneMore(calls, c);
    RemembersDecides(table, calls, c);
    var table', all := pruned[c.key := c.now], calls + [c];
    forall k | k in table' ensures HoldsPass(all, k, table'[k]) {
      if k != c.key {
        assert HoldsPass(calls, k, table[k]);
        HoldsPassStays(calls, c, k, table[k]);
      } else {
        assert all[|calls|] == Call(k, table'[k]);
      }
    }
    forall i | 0 <= i < |all| && Passes(all, i)
      ensures if all[i].key in table' then all[i].now <= table'[all[i].key] else all[i].now < later - TTL
    {
      assert i < |calls| ==> calls[i] == all[i] && Passes(calls, i);
    }
  }

  lemma NextRemembers(table: Table, calls: seq<Call>, c: Call, pruned: Table, later: real)
    requires Remembers(table, calls, c.now) && NonDecreasing(calls + [c]) && c.now <= later
    requires pruned == table || pruned == Pruned(table, c.now)
    ensures Remembers(if Suppresses(table, c) then table else pruned[c.key := c.now], calls + [c], later)
  {
    if Suppresses(table, c) {
      SuppressedRemembers(table, calls, c, later);
    } else {
      PassedRemembers(table, calls, c, pruned, later);
    }
  }

  lemma {:induction false} AfterRemembers(calls: seq<Call>, later: real)
    requires NonDecreasing(calls) && (calls != [] ==> calls[|calls| - 1].now <= later)
    ensures Remembers(After(calls), calls, later) && Remembers(UnprunedAfter(calls), calls, later)
  {
    if calls != [] {
      var init, c := calls[..|calls| - 1], calls[|calls| - 1];
      assert calls == init + [c];
      AfterRemembers(init, c.now);
      NextRemembers(After(init), init, c, Pruned(After(init), c.now), later);
      NextRemembers(UnprunedAfter(init), init, c, UnprunedAfter(init), later);
    }
  }

  /** On every call of every run the pruned table, the table that is never pruned, and the history agree. */
  lemma PruningIsInvisible(calls: seq<Call>, n: nat)
    requires NonDecreasing(calls) && n < |calls|
    ensures Suppresses(After(calls[..n]), calls[n]) == Suppresses(UnprunedAfter(calls[..n]), calls[n])
    ensures Suppresses(After(calls[..n]), calls[n]) <==> !Passes(calls, n)
  {
    var before, c, all := calls[..n], calls[n], calls[..n + 1];
    assert all == before + [c];
    assert NonDecreasing(before) && NonDecreasing(all);
    AfterRemembers(before, c.now);
    Decided(After(before), UnprunedAfter(before), before, c);
    PassesPrefix(calls, n + 1, n);
  }

  lemma Decided(table: Table, unpruned: Table, calls: seq<Call>, c: Call)
    requires Remembers(table, calls, c.now) && Remembers(unpruned, calls, c.now) && NonDecreasing(calls + [c])
    ensures (Suppresses(table, c) <==> !Passes(calls + [c], |calls|))
    ensures (Suppresses(unpruned, c) <==> !Passes(calls + [c], |calls|))
  {
    RemembersDecides(table, calls, c);
    RemembersDecides(unpruned, calls, c);
  }

  /** Equal records that both pass are at least the time-to-live, a minute, apart. */
  lemma PassesAreApart(calls: seq<Call>, i: nat, n: nat)
    requires NonDecreasing(calls) && i < n < |calls| && calls[i].key == calls[n].key
    requires !Suppresses(After(calls[..i]), calls[i]) && !Suppresses(After(calls[..n]), calls[n])
    ensures calls[n].now - calls[i].now >= 60.0
  {
    PruningIsInvisible(calls, i);
    PruningIsInvisible(calls, n);
  }

  /** A suppressed record has an equal one before it that passed and is less than the time-to-live old. */
  lemma SuppressedFollowsPass(calls: seq<Call>, n: nat) returns (i: nat)
    requires NonDecreasing(calls) && n < |calls| && Suppresses(After(calls[..n]), calls[n])
    ensures i < n && calls[i].key == calls[n].key && calls[n].now - calls[i].now < TTL
    ensures !Suppresses(After(calls[..i]), calls[i])
  {
    PruningIsInvisible(calls, n);
    i :| 0 <= i < n && calls[i].key == calls[n].key && calls[n].now - calls[i].now < TTL && Passes(calls, i);
    PruningIsInvisible(calls, i);
  }

  /** A record that passes when more than 4096 are remembered makes the table forget all that are older than a minute,
      and nothing else is ever forgotten. */
  lemma PrunedExactly(calls: seq<Call>, c: Call)
    ensures
      var table, table' := After(calls), After(calls + [c]);
      if c.key in table && c.now - table[c.key] < 60.0 then table' == table
      else && c.key in table' && table'[c.key] == c.now
           && forall k | k != c.key :: (k in table' <==> k in table && (|table| > 4096 ==> c.now - table[k] <= 60.0))
                                       && (k in table' ==> table'[k] == table[k])
  {
    AfterOneMore(calls, c);
  }

  lemma OneMoreNonDecreasing(calls: seq<Call>, c: Call)
    requires NonDecreasing(calls) && (calls != [] ==> calls[|calls| - 1].now <= c.now)
    ensures NonDecreasing(calls + [c])
  {
    assert forall i | 0 <= i < |calls| - 1 :: calls[i].now <= calls[|calls| - 1].now;
  }

  lemma AfterOneMore(calls: seq<Call>, c: Call)
    ensures After(calls + [c]) == Recorded(After(calls), c)
  {
    assert (calls + [c])[..|calls|] == calls;
  }

  lemma LastDecides(calls: seq<Call>, c: Call)
    requires NonDecreasing(calls) && NonDecreasing(calls + [c]) && (calls != [] ==> calls[|calls| - 1].now <= c.now)
    ensures Suppresses(After(calls), c) <==> !Passes(calls + [c], |calls|)
  {
    AfterRemembers(calls, c.now);
    RemembersDecides(After(calls), calls, c);
  }

  class Suppressor {
    var recent: Table
    ghost var calls: seq<Call>

    ghost predicate Valid() reads this {
      NonDecreasing(calls) && recent == After(calls)
    }

    constructor ()
      ensures Valid() && calls == []
    {
      recent, calls := map[], [];
    }

    /** The monotonic clock never goes back. */
    method SuppressRepeat(key: Key, now: real) returns (suppressed: bool)
      requires Valid() && (calls != [] ==> calls[|calls| - 1].now <= now)
      modifies this
      ensures Valid() && calls == old(calls) + [Call(key, now)]
      ensures suppressed <==> !Passes(calls, |calls| - 1)
      ensures suppressed ==> recent == old(recent)
      ensures !suppressed ==> key in recent && recent[key] == now
    {
      var c := Call(key, now);
      ghost var all := calls + [c];
      OneMoreNonDecreasing(calls, c);
      AfterOneMore(calls, c);
      LastDecides(calls, c);
      calls := all;
      if key in recent && now - recent[key] < TTL {
        return true;
      }
      if |recent| > PRUNE_ABOVE {
        var cutoff := now - TTL;
        recent := map k | k in recent && recent[k] >= cutoff :: recent[k];
      }
      recent := recent[key := now];
      suppressed := false;
    }
  }
}

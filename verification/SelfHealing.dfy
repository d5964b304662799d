/** Tasks and workflows that are disabled after failures in a row and enabled
    again after a cooldown. Times are seconds; stamps are whole seconds. */
module SelfHealing {
  import opened Options

  datatype Kind = Task | Workflow

  datatype Status = Succeeded | Failed | Skipped

  datatype Cycle = Cycle(disabled: int, reenabled: Option<int>)

  /** A task or workflow with its runs, oldest first. `stamp` is the time of an
      automatic disable that has not been undone. */
  datatype Item = Item(kind: Kind, enabled: bool, stamp: Option<int>, cycles: seq<Cycle>, runs: seq<Status>)

  // ---------------------------------------------------------------- failures in a row

  /** The failed runs at the end, counted up to `limit`. */
  function Streak(runs: seq<Status>, limit: nat): nat {
    if limit == 0 || runs == [] || runs[|runs| - 1] != Failed then 0
    else 1 + Streak(runs[..|runs| - 1], limit - 1)
  }

  predicate NewestFailed(runs: seq<Status>, n: nat) {
    n <= |runs| && forall i :: |runs| - n <= i < |runs| ==> runs[i] == Failed
  }

  lemma {:induction false} StreakIsFull(runs: seq<Status>, n: nat)
    ensures Streak(runs, n) >= n <==> NewestFailed(runs, n)
    ensures Streak(runs, n) <= n
  {
    if n > 0 && runs != [] && runs[|runs| - 1] == Failed {
      var init := runs[..|runs| - 1];
      StreakIsFull(init, n - 1);
      if NewestFailed(init, n - 1) {
        assert forall i :: |runs| - n <= i < |runs| - 1 ==> runs[i] == init[i];
      }
    }
  }

  /** The count is the number of failed runs at the end, cut at the limit. */
  lemma {:induction false} StreakSays(runs: seq<Status>, limit: nat)
    ensures var n := Streak(runs, limit);
      && n <= limit && n <= |runs| && NewestFailed(runs, n)
      && (n < limit && n < |runs| ==> runs[|runs| - 1 - n] != Failed)
  {
    if limit > 0 && runs != [] && runs[|runs| - 1] == Failed {
      StreakSays(runs[..|runs| - 1], limit - 1);
    }
  }

  // ---------------------------------------------------------------- steps

  function LastCycles(cycles: seq<Cycle>, n: nat): seq<Cycle> {
    if |cycles| > n then cycles[|cycles| - n..] else cycles
  }

  const KEPT := 9

  function Disabled(it: Item, now: real): Item {
    it.(enabled := false, stamp := Some(now.Floor),
        cycles := LastCycles(it.cycles + [Cycle(now.Floor, None)], KEPT))
  }

  /** One execution. A disabled task does not run; a disabled workflow logs that
      it was skipped. `after` is the number of failures in a row that disable. */
  function Executed(it: Item, result: Status, now: real, after: int): Item {
    if !it.enabled then (if it.kind == Task then it else it.(runs := it.runs + [Skipped]))
    else
      var ran := it.(runs := it.runs + [result]);
      if result == Failed && after > 0 && Streak(ran.runs, after) >= after then Disabled(ran, now) else ran
  }

  /** The cooldown of an automatic disable is over. */
  predicate Due(it: Item, threshold: int, now: real) {
    threshold > 0 && !it.enabled && it.stamp.Some? && it.stamp.value as real <= now - threshold as real
  }

  function Closed(cycles: seq<Cycle>, at: int): seq<Cycle> {
    if cycles != [] && cycles[|cycles| - 1].reenabled.None?
    then cycles[|cycles| - 1 := cycles[|cycles| - 1].(reenabled := Some(at))]
    else cycles
  }

  /** `now` is the clock when the round starts, `later` when the item is written. */
  function Patrolled(it: Item, threshold: int, now: real, later: real): Item {
    if !Due(it, threshold, now) then it
    else it.(enabled := true, stamp := None, cycles := Closed(it.cycles, later.Floor))
  }

  class Registry {
    var items: seq<Item>

    constructor (items: seq<Item>)
      ensures this.items == items
    {
      this.items := items;
    }

    method CountStreak(runs: seq<Status>, limit: nat) returns (n: nat)
      ensures n == Streak(runs, limit)
    {
      n := 0;
      var from := if |runs| > limit then |runs| - limit else 0;
      var k := |runs|;
      assert runs[..k] == runs;
      while k > from && runs[k - 1] == Failed
        invariant from <= k <= |runs| && n == |runs| - k
        invariant Streak(runs, limit) == n + Streak(runs[..k], limit - n)
      {
        assert runs[..k][..k - 1] == runs[..k - 1];
        n, k := n + 1, k - 1;
      }
    }

    method Execute(i: nat, result: Status, now: real, after: int)
      requires i < |items|
      modifies this
      ensures items == old(items)[i := Executed(old(items)[i], result, now, after)]
    {
      var it := items[i];
      if !it.enabled {
        if it.kind == Workflow {
          items := items[i := it.(runs := it.runs + [Skipped])];
        }
        return;
      }
      it := it.(runs := it.runs + [result]);
      items := items[i := it];
      if result == Failed && after > 0 {
        var consecutive := CountStreak(it.runs, after);
        if consecutive >= after {
          var cycles := it.cycles + [Cycle(now.Floor, None)];
          items := items[i := it.(enabled := false, stamp := Some(now.Floor), cycles := LastCycles(cycles, KEPT))];
        }
      }
    }

    /** One round over all items. */
    method AutoReenable(threshold: int, now: real, later: real) returns (reenabled: nat)
      modifies this
      ensures |items| == |old(items)|
      ensures forall i :: 0 <= i < |items| ==> items[i] == Patrolled(old(items)[i], threshold, now, later)
      ensures reenabled == |set i | 0 <= i < |old(items)| && Due(old(items)[i], threshold, now)|
    {
      reenabled := 0;
      ghost var due: set<int> := {};
      if threshold <= 0 {
        assert (set i | 0 <= i < |old(items)| && Due(old(items)[i], threshold, now)) == {};
        return;
      }
      for k := 0 to |items|
        invariant |items| == |old(items)|
        invariant forall i :: 0 <= i < k ==> items[i] == Patrolled(old(items)[i], threshold, now, later)
        invariant forall i :: k <= i < |items| ==> items[i] == old(items)[i]
        invariant due == (set i | 0 <= i < k && Due(old(items)[i], threshold, now)) && reenabled == |due|
      {
        var it := items[k];
        if !it.enabled && it.stamp.Some? && it.stamp.value as real <= now - threshold as real {
          var cycles := it.cycles;
          if cycles != [] && cycles[|cycles| - 1].reenabled.None? {
            cycles := cycles[|cycles| - 1 := cycles[|cycles| - 1].(reenabled := Some(later.Floor))];
          }
          items := items[k := it.(enabled := true, stamp := None, cycles := cycles)];
          assert k !in due;
          reenabled, due := reenabled + 1, due + {k};
        }
      }
    }
  }

  // ---------------------------------------------------------------- when the breaker trips

  /** A run of an enabled item disables it exactly when it failed, as did the
      `after` newest runs with it. */
  lemma DisablesIff(it: Item, result: Status, now: real, after: int)
    requires it.enabled
    ensures !Executed(it, result, now, after).enabled <==> after > 0 && NewestFailed(it.runs + [result], after)
  {
    if after > 0 {
      StreakIsFull(it.runs + [result], after);
      assert (it.runs + [result])[|it.runs|] == result;
    }
  }

  /** A task that is disabled does nothing and a workflow logs that it was skipped; an
      enabled item logs its run, and when that trips the breaker it is stamped and
      an open cycle is logged, of which the newest nine are kept. */
  lemma ExecutedSays(it: Item, result: Status, now: real, after: int)
    ensures var n := Executed(it, result, now, after);
      var trips := it.enabled && after > 0 && NewestFailed(it.runs + [result], after);
      var logged := it.cycles + [Cycle(now.Floor, None)];
      && n.kind == it.kind
      && (!it.enabled && it.kind == Task ==> n == it)
      && (!it.enabled && it.kind == Workflow ==> n.runs == it.runs + [Skipped] && n == it.(runs := n.runs))
      && (it.enabled ==> n.runs == it.runs + [result])
      && (it.enabled && !trips ==> n == it.(runs := n.runs))
      && (trips ==>
            && !n.enabled && n.stamp == Some(now.Floor)
            && n.cycles == logged[if |logged| > 9 then |logged| - 9 else 0..])
  {
    if it.enabled {
      DisablesIff(it, result, now, after);
    }
  }

  /** A round enables an item exactly when its stamp is at least the threshold old; it
      then takes the stamp away and closes the last cycle if that is open. */
  lemma PatrolledSays(it: Item, threshold: int, now: real, later: real)
    ensures var n := Patrolled(it, threshold, now, later);
      var over := threshold > 0 && !it.enabled && it.stamp.Some? && (it.stamp.value + threshold) as real <= now;
      var last := |it.cycles| - 1;
      && (n.enabled <==> it.enabled || over) && (over <==> Due(it, threshold, now))
      && n.kind == it.kind && n.runs == it.runs && |n.cycles| == |it.cycles|
      && (!over ==> n == it)
      && (over ==>
            && n.stamp == None && (forall i :: 0 <= i < last ==> n.cycles[i] == it.cycles[i])
            && (last >= 0 && it.cycles[last].reenabled.None? ==>
                  n.cycles[last] == Cycle(it.cycles[last].disabled, Some(later.Floor)))
            && (last >= 0 && it.cycles[last].reenabled.Some? ==> n.cycles[last] == it.cycles[last]))
  {
  }

  // ---------------------------------------------------------------- the cycle log

  predicate IsClosed(c: Cycle, threshold: int) {
    c.reenabled.Some? && c.disabled + threshold <= c.reenabled.value
  }

  /** Cycles follow each other at least the cooldown apart. */
  predicate InOrder(a: Cycle, b: Cycle, threshold: int) {
    a.reenabled.Some? && a.disabled + threshold <= a.reenabled.value <= b.disabled
  }

  ghost predicate CyclesSound(cycles: seq<Cycle>, threshold: int) {
    forall i {:trigger cycles[i]} :: 0 <= i && i + 1 < |cycles| ==> InOrder(cycles[i], cycles[i + 1], threshold)
  }

  /** At most nine cycles. Enabled: all closed, by now. Disabled: only the last
      is open, and it is the one the stamp belongs to. */
  ghost predicate Inv(it: Item, threshold: int, clock: real) {
    && |it.cycles| <= KEPT && CyclesSound(it.cycles, threshold)
    && (it.enabled <==> it.stamp.None?)
    && (it.enabled && it.cycles != [] ==>
          IsClosed(it.cycles[|it.cycles| - 1], threshold) && it.cycles[|it.cycles| - 1].reenabled.value <= clock.Floor)
    && (!it.enabled ==>
          && it.cycles != [] && it.cycles[|it.cycles| - 1] == Cycle(it.stamp.value, None)
          && it.stamp.value <= clock.Floor)
  }

  datatype Event = Execute(result: Status, now: real) | Patrol(now: real, later: real)

  function Next(it: Item, ev: Event, after: int, threshold: int): Item {
    match ev
    case Execute(result, now) => Executed(it, result, now, after)
    case Patrol(now, later) => Patrolled(it, threshold, now, later)
  }

  predicate OnTime(ev: Event, clock: real) {
    clock <= ev.now && (ev.Patrol? ==> ev.now <= ev.later)
  }

  function ClockAfter(ev: Event): real {
    if ev.Patrol? then ev.later else ev.now
  }

  lemma FloorMonotone(a: real, b: real)
    requires a <= b
    ensures a.Floor <= b.Floor
  {
  }

  lemma FloorOfDue(stamp: int, threshold: int, now: real, later: real)
    requires stamp as real <= now - threshold as real && now <= later
    ensures stamp + threshold <= later.Floor
  {
    FloorMonotone((stamp + threshold) as real, later);
  }

  /** The oldest cycles go first. */
  lemma LastCyclesSound(cycles: seq<Cycle>, n: nat, threshold: int)
    requires CyclesSound(cycles, threshold) && n > 0 && cycles != []
    ensures var r := LastCycles(cycles, n);
      CyclesSound(r, threshold) && 0 < |r| <= n && r[|r| - 1] == cycles[|cycles| - 1]
  {
    var r, skip := LastCycles(cycles, n), if |cycles| > n then |cycles| - n else 0;
    forall i {:trigger r[i]} | 0 <= i && i + 1 < |r| ensures InOrder(r[i], r[i + 1], threshold) {
      assert r[i] == cycles[i + skip] && r[i + 1] == cycles[i + skip + 1];
    }
  }

  lemma DisableKeeps(it: Item, threshold: int, clock: real, now: real)
    requires Inv(it, threshold, clock) && it.enabled && clock <= now
    ensures Inv(Disabled(it, now), threshold, now)
  {
    FloorMonotone(clock, now);
    var open := Cycle(now.Floor, None);
    var all := it.cycles + [open];
    forall i {:trigger all[i]} | 0 <= i && i + 1 < |all| ensures InOrder(all[i], all[i + 1], threshold) {
      if i + 1 < |it.cycles| {
        assert InOrder(it.cycles[i], it.cycles[i + 1], threshold);
      }
    }
    LastCyclesSound(all, KEPT, threshold);
  }

  lemma ReenableKeeps(it: Item, threshold: int, clock: real, now: real, later: real)
    requires Inv(it, threshold, clock) && Due(it, threshold, now) && clock <= now <= later
    ensures Inv(Patrolled(it, threshold, now, later), threshold, later)
  {
    FloorOfDue(it.stamp.value, threshold, now, later);
    var n := Patrolled(it, threshold, now, later).cycles;
    forall i {:trigger n[i]} | 0 <= i && i + 1 < |n| ensures InOrder(n[i], n[i + 1], threshold) {
      assert InOrder(it.cycles[i], it.cycles[i + 1], threshold);
    }
  }

  /** Every automatic step keeps the invariant. */
  lemma StepKeeps(it: Item, ev: Event, after: int, threshold: int, clock: real)
    requires Inv(it, threshold, clock) && OnTime(ev, clock)
    ensures Inv(Next(it, ev, after, threshold), threshold, ClockAfter(ev))
  {
    FloorMonotone(clock, ClockAfter(ev));
    match ev
    case Execute(result, now) =>
      if it.enabled {
        var ran := it.(runs := it.runs + [result]);
        DisableKeeps(ran, threshold, clock, now);
      }
    case Patrol(now, later) =>
      if Due(it, threshold, now) {
        ReenableKeeps(it, threshold, clock, now, later);
      }
  }

  predicate Timely(evs: seq<Event>, clock: real)
    decreases |evs|
  {
    evs == [] || (OnTime(evs[0], clock) && Timely(evs[1..], ClockAfter(evs[0])))
  }

  function Run(it: Item, evs: seq<Event>, after: int, threshold: int): Item
    decreases |evs|
  {
    if evs == [] then it else Run(Next(it, evs[0], after, threshold), evs[1..], after, threshold)
  }

  function ClockAfterAll(evs: seq<Event>, clock: real): real
    decreases |evs|
  {
    if evs == [] then clock else ClockAfterAll(evs[1..], ClockAfter(evs[0]))
  }

  lemma {:induction false} RunKeeps(it: Item, evs: seq<Event>, after: int, threshold: int, clock: real)
    requires Inv(it, threshold, clock) && Timely(evs, clock)
    ensures Inv(Run(it, evs, after, threshold), threshold, ClockAfterAll(evs, clock))
    decreases |evs|
  {
    if evs != [] {
      StepKeeps(it, evs[0], after, threshold, clock);
      RunKeeps(Next(it, evs[0], after, threshold), evs[1..], after, threshold, ClockAfter(evs[0]));
    }
  }

  /** So after any automatic run from a new item: at most nine cycles; all of
      them closed when it is enabled, only the last open when it is not. */
  lemma NewItemKeeps(kind: Kind, evs: seq<Event>, after: int, threshold: int, clock: real)
    requires Timely(evs, clock)
    ensures Inv(Run(Item(kind, true, None, [], []), evs, after, threshold), threshold, ClockAfterAll(evs, clock))
  {
    RunKeeps(Item(kind, true, None, [], []), evs, after, threshold, clock);
  }

  // ---------------------------------------------------------------- two disables in a row

  predicate Disables(it: Item, ev: Event, after: int) {
    it.enabled && ev.Execute? && !Executed(it, ev.result, ev.now, after).enabled
  }

  /** The times of the automatic disables of a run. */
  function DisableTimes(it: Item, evs: seq<Event>, after: int, threshold: int): seq<int>
    decreases |evs|
  {
    if evs == [] then []
    else (if Disables(it, evs[0], after) then [evs[0].now.Floor] else [])
         + DisableTimes(Next(it, evs[0], after, threshold), evs[1..], after, threshold)
  }

  predicate SpacedFrom(times: seq<int>, earliest: int, gap: int) {
    && (forall i :: 0 <= i < |times| ==> earliest <= times[i])
    && (forall i, j :: 0 <= i < j < |times| ==> times[i] + gap <= times[j])
  }

  /** The first whole second at which the item can be disabled next. */
  function Earliest(it: Item, threshold: int, clock: real): int {
    if it.enabled || it.stamp.None? then clock.Floor else it.stamp.value + threshold
  }

  lemma SpacedCons(t: int, times: seq<int>, earliest: int, gap: int)
    requires earliest <= t && gap > 0 && SpacedFrom(times, t + gap, gap)
    ensures SpacedFrom([t] + times, earliest, gap)
  {
    assert forall i :: 0 < i < |[t] + times| ==> ([t] + times)[i] == times[i - 1];
  }

  lemma SpacedEarlier(times: seq<int>, earliest: int, later: int, gap: int)
    requires SpacedFrom(times, later, gap) && earliest <= later
    ensures SpacedFrom(times, earliest, gap)
  {
  }

  lemma EarliestStep(it: Item, ev: Event, after: int, threshold: int, clock: real)
    requires Inv(it, threshold, clock) && OnTime(ev, clock) && threshold > 0
    ensures var next := Earliest(Next(it, ev, after, threshold), threshold, ClockAfter(ev));
      if Disables(it, ev, after) then Earliest(it, threshold, clock) <= ev.now.Floor && next == ev.now.Floor + threshold
      else Earliest(it, threshold, clock) <= next
  {
    FloorMonotone(clock, ev.now);
    FloorMonotone(clock, ClockAfter(ev));
    if ev.Patrol? && Due(it, threshold, ev.now) {
      FloorOfDue(it.stamp.value, threshold, ev.now, ev.later);
    }
  }

  /** Automatic disables of one item are at least the cooldown apart, however
      many cycles the log has dropped. */
  lemma {:induction false} DisablesSpaced(it: Item, evs: seq<Event>, after: int, threshold: int, clock: real)
    requires Inv(it, threshold, clock) && Timely(evs, clock) && threshold > 0
    ensures SpacedFrom(DisableTimes(it, evs, after, threshold), Earliest(it, threshold, clock), threshold)
    decreases |evs|
  {
    if evs != [] {
      var ev, it' := evs[0], Next(it, evs[0], after, threshold);
      var first := Earliest(it, threshold, clock);
      StepKeeps(it, ev, after, threshold, clock);
      EarliestStep(it, ev, after, threshold, clock);
      DisablesSpaced(it', evs[1..], after, threshold, ClockAfter(ev));
      var rest := DisableTimes(it', evs[1..], after, threshold);
      if Disables(it, ev, after) {
        SpacedCons(ev.now.Floor, rest, first, threshold);
      } else {
        assert [] + rest == rest;
        SpacedEarlier(rest, first, Earliest(it', threshold, ClockAfter(ev)), threshold);
      }
    }
  }

  // ---------------------------------------------------------------- after re-enabling

  function Attempts(it: Item, n: nat, after: int): Item {
    if n == 0 then it else Executed(Attempts(it, n - 1, after), Succeeded, 0.0, after)
  }

  lemma {:induction false} AttemptsWhileDisabled(it: Item, n: nat, after: int)
    requires !it.enabled
    ensures Attempts(it, n, after) == it.(runs := Attempts(it, n, after).runs)
    ensures if it.kind == Task || n == 0 then Attempts(it, n, after).runs == it.runs
      else
        var runs := Attempts(it, n, after).runs;
        runs != [] && runs[|runs| - 1] == Skipped
  {
    if n > 0 {
      AttemptsWhileDisabled(it, n - 1, after);
    }
  }

  /** The run log is not reset: an item the breaker disabled falls back at its
      first failure after it is enabled again, unless it is a workflow that was
      asked to run in between and logged that it was skipped. */
  lemma RelapsesAtOnceIff(it: Item, n: nat, after: int, threshold: int, patrol: real, now: real)
    requires !it.enabled && after >= 2 && NewestFailed(it.runs, after)
    requires Due(Attempts(it, n, after), threshold, patrol)
    ensures var back := Patrolled(Attempts(it, n, after), threshold, patrol, patrol);
      !Executed(back, Failed, now, after).enabled <==> it.kind == Task || n == 0
  {
    var waited := Attempts(it, n, after);
    var back := Patrolled(waited, threshold, patrol, patrol);
    AttemptsWhileDisabled(it, n, after);
    DisablesIff(back, Failed, now, after);
    var runs := waited.runs + [Failed];
    if it.kind == Workflow && n > 0 {
      assert runs[|runs| - 2] == Skipped;
    }
  }
}

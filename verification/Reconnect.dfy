/** The reconnect supervisor of an adapter: loops that connect, wait and connect
    again, any number of which may be alive at once. What a loop does between
    two suspensions is one step. Times are seconds (`real`). */
module Reconnect {
  import opened Options

  datatype Config = Config(interval: real, cap: real, most: int)

  datatype Status = Registered | Online | Disconnected | Disabled

  /** The fields of the adapter that all its loops share. */
  datatype Shared = Shared(generation: nat, running: bool, since: Option<real>, status: Status)

  datatype Point = Connecting(startedAt: real) | Sleeping(delay: real) | Ended

  /** One loop: the generation it was started in, its failures in a row, where it is. */
  datatype Loop = Loop(generation: nat, attempt: nat, at: Point)

  datatype Result = Returned | Failed | Cancelled

  const RESET := 60.0
  const FLOOR := 0.1

  // ---------------------------------------------------------------- backoff

  /** `interval` doubled k times. */
  function Doubled(interval: real, k: nat): real {
    if k == 0 then interval else 2.0 * Doubled(interval, k - 1)
  }

  function Min(a: real, b: real): real {
    if a <= b then a else b
  }

  /** The largest number of failures in a row whose delay can be computed: after
      one more, 2 to the 1024th no longer converts to a float, and the loop dies. */
  const LAST: nat := 1024

  /** The delay after the k-th failure in a row, before jitter. */
  function BaseDelay(c: Config, k: nat): real
    requires 1 <= k <= LAST
  {
    Min(Doubled(c.interval, k - 1), c.cap)
  }

  function Sleep(base: real, jitter: real): real {
    if base * jitter < FLOOR then FLOOR else base * jitter
  }

  // ---------------------------------------------------------------- what a loop does

  /** The loop is the newest and the adapter is running. */
  predicate Current(s: Shared, l: Loop) {
    s.running && s.generation == l.generation
  }

  function Begun(s: Shared, now: real): (Shared, Loop) {
    (s.(generation := s.generation + 1, running := true), Loop(s.generation + 1, 0, Connecting(now)))
  }

  /** The failures in a row before this one: none after a connection that held. */
  function Carried(s: Shared, l: Loop, result: Result, now: real): nat
    requires l.at.Connecting?
  {
    var held := if s.since.Some? then s.since.value else l.at.startedAt;
    if result == Returned || (l.attempt > 0 && now - held >= RESET) then 0 else l.attempt
  }

  /** From the end of a connect to the next suspension. */
  function AfterConnect(s: Shared, l: Loop, result: Result, now: real, jitter: real, c: Config): (Shared, Loop)
    requires l.at.Connecting?
  {
    var s1 := s.(since := None, status := if result == Failed then Disconnected else s.status);
    if result == Cancelled then (s1, l.(at := Ended))
    else if !Current(s, l) then (s1, l.(attempt := Carried(s, l, result, now), at := Ended))
    else
      var k := Carried(s, l, result, now) + 1;
      if c.most > 0 && k > c.most then (s1.(running := false, status := Disabled), l.(attempt := k, at := Ended))
      else if k > LAST then (s1, l.(attempt := k, at := Ended))
      else (s1, l.(attempt := k, at := Sleeping(Sleep(BaseDelay(c, k), jitter))))
  }

  function AfterSleep(s: Shared, l: Loop, now: real): Loop {
    l.(at := if Current(s, l) then Connecting(now) else Ended)
  }

  class Adapter {
    var generation: nat
    var running: bool
    var since: Option<real>
    var status: Status
    const config: Config

    constructor (c: Config)
      ensures State() == Shared(0, false, None, Registered) && config == c
    {
      generation, running, since, status := 0, false, None, Registered;
      config := c;
    }

    function State(): Shared
      reads this
    {
      Shared(generation, running, since, status)
    }

    method Begin(now: real) returns (l: Loop)
      modifies this
      ensures (State(), l) == Begun(old(State()), now)
    {
      generation := generation + 1;
      running := true;
      l := Loop(generation, 0, Connecting(now));
    }

    method MarkConnected(now: real)
      modifies this`since, this`status
      ensures since == Some(now) && status == Online
    {
      since, status := Some(now), Online;
    }

    method Resume(l: Loop, result: Result, now: real, jitter: real) returns (next: Loop)
      requires l.at.Connecting?
      modifies this
      ensures (State(), next) == AfterConnect(old(State()), l, result, now, jitter, config)
    {
      var attempt := l.attempt;
      match result {
        case Returned => attempt := 0;
        case Cancelled =>
          since := None;
          return l.(at := Ended);
        case Failed =>
          status := Disconnected;
          var held := if since.Some? then since.value else l.at.startedAt;
          if attempt > 0 && now - held >= RESET {
            attempt := 0;
          }
      }
      since := None;
      if !(running && generation == l.generation) {
        return l.(attempt := attempt, at := Ended);
      }
      attempt := attempt + 1;
      if config.most > 0 && attempt > config.most {
        status := Disabled;
        running := false;
        return l.(attempt := attempt, at := Ended);
      }
      if attempt > LAST {
        return l.(attempt := attempt, at := Ended);
      }
      next := l.(attempt := attempt, at := Sleeping(Sleep(BaseDelay(config, attempt), jitter)));
    }

    method Stop()
      modifies this`running, this`status
      ensures !running && status == Disconnected
    {
      running, status := false, Disconnected;
    }
  }

  // ---------------------------------------------------------------- interleavings

  /** All loops ever begun, and the starts that are scheduled but have not begun. */
  datatype Supervised = Supervised(shared: Shared, loops: seq<Loop>, scheduled: nat)

  datatype Event =
    | Start
    | Begin(now: real)
    | MarkConnected(i: nat, now: real)
    | Resume(i: nat, result: Result, now: real, jitter: real)
    | Wake(i: nat, now: real)
    | CancelSleep(i: nat)
    | Stop

  predicate Enabled(s: Supervised, ev: Event) {
    match ev
    case Begin(_) => s.scheduled > 0
    case MarkConnected(i, _) => i < |s.loops| && s.loops[i].at.Connecting?
    case Resume(i, _, _, _) => i < |s.loops| && s.loops[i].at.Connecting?
    case Wake(i, _) => i < |s.loops| && s.loops[i].at.Sleeping?
    case CancelSleep(i) => i < |s.loops| && s.loops[i].at.Sleeping?
    case _ => true
  }

  function Next(s: Supervised, ev: Event, c: Config): Supervised {
    if !Enabled(s, ev) then s
    else
      match ev
      case Start => s.(scheduled := s.scheduled + 1)
      case Begin(now) =>
        Supervised(Begun(s.shared, now).0, s.loops + [Begun(s.shared, now).1], s.scheduled - 1)
      case MarkConnected(i, now) => s.(shared := s.shared.(since := Some(now), status := Online))
      case Resume(i, result, now, jitter) =>
        var r := AfterConnect(s.shared, s.loops[i], result, now, jitter, c);
        s.(shared := r.0, loops := s.loops[i := r.1])
      case Wake(i, now) => s.(loops := s.loops[i := AfterSleep(s.shared, s.loops[i], now)])
      case CancelSleep(i) => s.(loops := s.loops[i := s.loops[i].(at := Ended)])
      case Stop => s.(shared := s.shared.(running := false, status := Disconnected))
  }

  /** The step begins a connect: a loop begins, or goes round again. */
  predicate BeginsConnect(s: Supervised, ev: Event) {
    Enabled(s, ev) && (ev.Begin? || (ev.Wake? && Current(s.shared, s.loops[ev.i])))
  }

  function Connects(s: Supervised, evs: seq<Event>, c: Config): nat
    decreases |evs|
  {
    if evs == [] then 0 else (if BeginsConnect(s, evs[0]) then 1 else 0) + Connects(Next(s, evs[0], c), evs[1..], c)
  }

  /** The connects of one particular loop, numbered in order of beginning. */
  function ConnectsOf(s: Supervised, evs: seq<Event>, i: nat, c: Config): nat
    decreases |evs|
  {
    if evs == [] then 0
    else (if BeginsConnect(s, evs[0]) && (if evs[0].Begin? then i == |s.loops| else evs[0].i == i) then 1 else 0)
         + ConnectsOf(Next(s, evs[0], c), evs[1..], i, c)
  }

  function Run(s: Supervised, evs: seq<Event>, c: Config): Supervised
    decreases |evs|
  {
    if evs == [] then s else Run(Next(s, evs[0], c), evs[1..], c)
  }

  /** The failures in a row that a loop survives. */
  function Limit(c: Config): nat {
    if 0 < c.most <= LAST then c.most else LAST
  }

  /** Loops carry their number as generation, and no loop alive has failed more
      often in a row than it survives. */
  ghost predicate Inv(s: Supervised, c: Config) {
    && s.shared.generation == |s.loops|
    && forall i {:trigger s.loops[i]} :: 0 <= i < |s.loops| ==>
      s.loops[i].generation == i + 1 && (!s.loops[i].at.Ended? ==> s.loops[i].attempt <= Limit(c))
  }

  lemma StepKeeps(s: Supervised, ev: Event, c: Config)
    requires Inv(s, c)
    ensures Inv(Next(s, ev, c), c)
  {
  }

  lemma {:induction false} RunKeeps(s: Supervised, evs: seq<Event>, c: Config)
    requires Inv(s, c)
    ensures Inv(Run(s, evs, c), c)
    decreases |evs|
  {
    if evs != [] {
      StepKeeps(s, evs[0], c);
      RunKeeps(Next(s, evs[0], c), evs[1..], c);
    }
  }

  predicate Addresses(ev: Event, i: nat) {
    (ev.MarkConnected? || ev.Resume? || ev.Wake? || ev.CancelSleep?) && ev.i == i
  }

  /** A step of a loop that is not the newest begins no connect, does not
      disable the adapter and does not stop it. */
  lemma StaleStepHarmless(s: Supervised, ev: Event, i: nat, c: Config)
    requires Inv(s, c) && i + 1 < |s.loops| && Addresses(ev, i)
    ensures !BeginsConnect(s, ev)
    ensures var n := Next(s, ev, c).shared;
      && n.running == s.shared.running && n.generation == s.shared.generation
      && (n.status == Disabled ==> s.shared.status == Disabled)
  {
    assert s.loops[i].generation == i + 1;
  }

  /** Once a newer loop has begun, a loop never begins another connect. */
  lemma {:induction false} StaleNeverConnects(s: Supervised, evs: seq<Event>, i: nat, c: Config)
    requires Inv(s, c) && i + 1 < |s.loops|
    ensures ConnectsOf(s, evs, i, c) == 0
    decreases |evs|
  {
    if evs != [] {
      StepKeeps(s, evs[0], c);
      if Addresses(evs[0], i) {
        StaleStepHarmless(s, evs[0], i, c);
      }
      StaleNeverConnects(Next(s, evs[0], c), evs[1..], i, c);
    }
  }

  /** Only the newest loop disables the adapter, and only after one failure in a
      row more than allowed. */
  lemma DisablerIsNewest(s: Supervised, ev: Event, c: Config)
    requires Inv(s, c) && s.shared.status != Disabled && Next(s, ev, c).shared.status == Disabled
    ensures ev.Resume? && ev.i + 1 == |s.loops| && s.shared.running && !Next(s, ev, c).shared.running
    ensures 0 < c.most <= LAST
    ensures Carried(s.shared, s.loops[ev.i], ev.result, ev.now) == c.most
  {
    assert s.loops[ev.i].generation == ev.i + 1;
  }

  // ---------------------------------------------------------------- what each event does

  /** The failures in a row that count when a connect ends: none after it returned, or
      failed after having held for a minute; the first failure never resets. */
  lemma CarriedSays(s: Shared, l: Loop, result: Result, now: real)
    requires l.at.Connecting?
    ensures var held := now - if s.since.Some? then s.since.value else l.at.startedAt;
      && (result == Returned ==> Carried(s, l, result, now) == 0)
      && (result == Failed && held >= 60.0 ==> Carried(s, l, result, now) == 0)
      && (result == Failed && held < 60.0 ==> Carried(s, l, result, now) == l.attempt)
  {
  }

  /** When a connect ends the recorded connection time is cleared, and a failure
      marks the adapter disconnected. A cancelled loop, or one that is not the newest
      of a running adapter, ends. Otherwise it counts one failure more than it
      carries, the first after a connect that returned: beyond the configured
      number it stops and disables the adapter, beyond 1024 it ends, and else it sleeps. */
  lemma ResumeSays(s: Shared, l: Loop, result: Result, now: real, jitter: real, c: Config)
    requires l.at.Connecting?
    ensures var r := AfterConnect(s, l, result, now, jitter, c);
      var n, m := r.0, r.1;
      var goes := result != Cancelled && s.running && s.generation == l.generation;
      var k := Carried(s, l, result, now) + 1;
      var disables := goes && c.most > 0 && k > c.most;
      && n.since == None && n.generation == s.generation && m.generation == l.generation
      && (n.running <==> s.running && !disables)
      && (disables ==> n.status == Disabled)
      && (!disables ==> n.status == if result == Failed then Disconnected else s.status)
      && (goes ==> m.attempt == k)
      && (goes && result == Returned ==> m.attempt == 1)
      && (m.at.Ended? <==> !goes || disables || k > 1024)
      && (!m.at.Ended? ==> m.at == Sleeping(Sleep(BaseDelay(c, k), jitter)))
  {
  }

  /** The sleep is the base delay times the jitter, but at least a tenth of a second. */
  lemma SleepSays(base: real, jitter: real)
    ensures Sleep(base, jitter) == if base * jitter < 0.1 then 0.1 else base * jitter
  {
  }

  /** The base delay is the interval doubled for each failure but the first, up to the cap. */
  lemma DelaySays(c: Config, k: nat)
    requires 1 <= k <= LAST
    ensures BaseDelay(c, k) <= c.cap && BaseDelay(c, k) <= c.interval * Pow2(k - 1) as real
    ensures BaseDelay(c, k) == c.cap || BaseDelay(c, k) == c.interval * Pow2(k - 1) as real
    ensures Pow2(0) == 1 && (k > 1 ==> Pow2(k - 1) == 2 * Pow2(k - 2))
  {
    DoubledIsPower(c.interval, k - 1);
  }

  /** A start is scheduled; a loop that begins is the newest, has failed never, connects
      and sets the adapter running; a connection is recorded with its time; a loop
      that wakes connects again exactly if it is the newest of a running adapter; a
      cancelled sleep ends its loop; a stop stops the adapter and nothing else. */
  lemma OtherEventsSay(s: Supervised, i: nat, now: real, c: Config)
    ensures Next(s, Start, c) == Supervised(s.shared, s.loops, s.scheduled + 1)
    ensures s.scheduled == 0 ==> Next(s, Begin(now), c) == s
    ensures s.scheduled > 0 ==>
      var n, g := Next(s, Begin(now), c), s.shared.generation + 1;
      && n.scheduled == s.scheduled - 1 && n.loops == s.loops + [Loop(g, 0, Connecting(now))]
      && n.shared == Shared(g, true, s.shared.since, s.shared.status)
    ensures i < |s.loops| && s.loops[i].at.Connecting? ==>
      Next(s, MarkConnected(i, now), c)
      == Supervised(Shared(s.shared.generation, s.shared.running, Some(now), Online), s.loops, s.scheduled)
    ensures i < |s.loops| && s.loops[i].at.Sleeping? ==>
      var l := s.loops[i];
      var goes := s.shared.running && s.shared.generation == l.generation;
      && Next(s, Wake(i, now), c) == Supervised(s.shared,
           s.loops[i := Loop(l.generation, l.attempt, if goes then Connecting(now) else Ended)], s.scheduled)
      && Next(s, CancelSleep(i), c) == Supervised(s.shared,
           s.loops[i := Loop(l.generation, l.attempt, Ended)], s.scheduled)
    ensures Next(s, Stop, c)
         == Supervised(Shared(s.shared.generation, false, s.shared.since, Disconnected), s.loops, s.scheduled)
  {
  }

  // ---------------------------------------------------------------- stopping

  predicate NoBegin(evs: seq<Event>) {
    forall i :: 0 <= i < |evs| ==> !evs[i].Begin?
  }

  predicate NoStart(evs: seq<Event>) {
    forall i :: 0 <= i < |evs| ==> !evs[i].Start?
  }

  /** A stopped adapter begins no connect until a loop begins. */
  lemma {:induction false} StoppedStays(s: Supervised, evs: seq<Event>, c: Config)
    requires !s.shared.running && NoBegin(evs)
    ensures Connects(s, evs, c) == 0 && !Run(s, evs, c).shared.running
    decreases |evs|
  {
    if evs != [] {
      assert !evs[0].Begin?;
      StoppedStays(Next(s, evs[0], c), evs[1..], c);
    }
  }

  lemma {:induction false} NothingScheduled(s: Supervised, evs: seq<Event>, c: Config)
    requires !s.shared.running && s.scheduled == 0 && NoStart(evs)
    ensures Connects(s, evs, c) == 0
    decreases |evs|
  {
    if evs != [] {
      assert !evs[0].Start?;
      NothingScheduled(Next(s, evs[0], c), evs[1..], c);
    }
  }

  /** After a stop no connect begins without another start, whatever else
      happens, exactly when no start was scheduled that has not begun yet. */
  lemma StopHoldsIff(s: Supervised, c: Config)
    ensures (forall evs :: NoStart(evs) ==> Connects(Next(s, Stop, c), evs, c) == 0) <==> s.scheduled == 0
  {
    var stopped := Next(s, Stop, c);
    if s.scheduled == 0 {
      forall evs | NoStart(evs) ensures Connects(stopped, evs, c) == 0 {
        NothingScheduled(stopped, evs, c);
      }
    } else {
      var evs := [Begin(0.0)];
      assert NoStart(evs) && BeginsConnect(stopped, evs[0]);
      assert Connects(stopped, evs, c) >= 1;
    }
  }

  /** A superseded loop does not just leave: the end of its connect is invisible
      to the others exactly when no connection time was recorded and, if it
      failed, the adapter already counted as disconnected. */
  lemma StaleEndInvisibleIff(s: Supervised, i: nat, result: Result, now: real, jitter: real, c: Config)
    requires Inv(s, c) && i + 1 < |s.loops| && s.loops[i].at.Connecting?
    ensures var n := Next(s, Resume(i, result, now, jitter), c);
      && n.loops[i].at.Ended? && (forall j :: 0 <= j < |s.loops| && j != i ==> n.loops[j] == s.loops[j])
      && (n.shared == s.shared <==>
            s.shared.since == None && (result != Failed || s.shared.status == Disconnected))
  {
    assert s.loops[i].generation == i + 1;
  }

  const NEW := Supervised(Shared(0, false, None, Registered), [], 0)

  /** Two starts; the second loop fails once at 2, connects again at 10 and is up
      at 50, while the first one is still in its connect. */
  function Superseded(c: Config): Supervised {
    var started := Next(Next(NEW, Start, c), Start, c);
    var begun := Next(Next(started, Begin(0.0), c), Begin(1.0), c);
    var again := Next(Next(begun, Resume(1, Failed, 2.0, 1.0), c), Wake(1, 10.0), c);
    Next(again, MarkConnected(1, 50.0), c)
  }

  /** When the newest loop fails at 80 it was up for 30 seconds and the backoff goes
      on. If the old loop ends at 60, the connection time is lost: the connect then
      counts as held for 70 seconds and the backoff starts again. */
  lemma StaleEndResetsBackoff(c: Config)
    requires c.most <= 0 || c.most >= 2
    ensures var s := Superseded(c);
      var stale, fails := Resume(0, Returned, 60.0, 1.0), Resume(1, Failed, 80.0, 1.0);
      && |s.loops| == 2 && |Next(s, fails, c).loops| == 2 && |Next(Next(s, stale, c), fails, c).loops| == 2
      && s.shared.since == Some(50.0) && Next(s, stale, c).shared.since == None
      && Next(s, fails, c).loops[1].attempt == 2
      && Next(Next(s, stale, c), fails, c).loops[1].attempt == 1
  {
    var loops := [Loop(1, 0, Connecting(0.0)), Loop(2, 0, Connecting(1.0))];
    var begun := Supervised(Shared(2, true, None, Registered), loops, 0);
    var started := Next(Next(NEW, Start, c), Start, c);
    assert Next(Next(started, Begin(0.0), c), Begin(1.0), c) == begun;
    var failed := Next(begun, Resume(1, Failed, 2.0, 1.0), c);
    assert failed.loops[1].at.Sleeping? && failed.loops[0] == begun.loops[0];
    var s := Superseded(c);
    assert s.loops == [Loop(1, 0, Connecting(0.0)), Loop(2, 1, Connecting(10.0))];
    assert s.shared == Shared(2, true, Some(50.0), Online);
  }

  // ---------------------------------------------------------------- failures in a row

  predicate IsFailure(s: Supervised, ev: Event, i: nat) {
    ev.Resume? && ev.i == i && ev.result == Failed && Enabled(s, ev)
  }

  /** How long the connect of a loop counts as held: from the recorded connection
      time, else from its start. */
  function HeldFor(s: Shared, l: Loop, now: real): real
    requires l.at.Connecting?
  {
    now - if s.since.Some? then s.since.value else l.at.startedAt
  }

  /** The event leaves the newest loop alone, or is a failure of it that does not
      reset the count: it was the first, or the connect did not hold for a minute. */
  predicate CountsOn(s: Supervised, ev: Event, i: nat) {
    && !ev.Stop? && !ev.Begin? && !(ev.CancelSleep? && ev.i == i)
    && (ev.Resume? && ev.i == i && Enabled(s, ev) ==>
          ev.result == Failed && (s.loops[i].attempt == 0 || HeldFor(s.shared, s.loops[i], ev.now) < RESET))
  }

  predicate AllCountOn(s: Supervised, evs: seq<Event>, i: nat, c: Config)
    decreases |evs|
  {
    evs == [] || (i < |s.loops| && CountsOn(s, evs[0], i) && AllCountOn(Next(s, evs[0], c), evs[1..], i, c))
  }

  function Failures(s: Supervised, evs: seq<Event>, i: nat, c: Config): nat
    decreases |evs|
  {
    if evs == [] then 0
    else (if IsFailure(s, evs[0], i) then 1 else 0) + Failures(Next(s, evs[0], c), evs[1..], i, c)
  }

  /** One event, whoever it belongs to. The failure after the last one that the
      loop survives ends it; it stops the adapter only if the configured number
      is at most 1024. */
  lemma CountStep(s: Supervised, ev: Event, i: nat, c: Config)
    requires Inv(s, c) && |s.loops| == i + 1 && CountsOn(s, ev, i)
    requires s.shared.running && !s.loops[i].at.Ended?
    ensures var n := Next(s, ev, c);
      && |n.loops| == i + 1
      && n.loops[i].attempt == s.loops[i].attempt + (if IsFailure(s, ev, i) then 1 else 0)
      && (n.loops[i].at.Ended? <==> IsFailure(s, ev, i) && s.loops[i].attempt == Limit(c))
      && (n.shared.running <==> !n.loops[i].at.Ended? || Limit(c) != c.most)
      && (!n.shared.running ==> n.shared.status == Disabled)
  {
    assert s.loops[i].generation == i + 1;
  }

  lemma {:induction false} EndedFailsNoMore(s: Supervised, evs: seq<Event>, i: nat, c: Config)
    requires Inv(s, c) && |s.loops| == i + 1 && s.loops[i].at.Ended? && AllCountOn(s, evs, i, c)
    ensures Failures(s, evs, i, c) == 0
    ensures var end := Run(s, evs, c);
      |end.loops| == i + 1 && end.loops[i].at.Ended? && end.shared.running == s.shared.running
    decreases |evs|
  {
    if evs != [] {
      StepKeeps(s, evs[0], c);
      EndedFailsNoMore(Next(s, evs[0], c), evs[1..], i, c);
    }
  }

  /** In any interleaving with other loops and with connections that come up and
      break within a minute: the newest loop of a running adapter goes on through
      the failures in a row that it survives, the next one ends it, and the adapter
      is then stopped exactly if the configured number is positive and at most 1024. */
  lemma {:induction false} StopsAfterMost(s: Supervised, evs: seq<Event>, i: nat, c: Config)
    requires Inv(s, c) && |s.loops| == i + 1 && AllCountOn(s, evs, i, c)
    requires s.shared.running && !s.loops[i].at.Ended?
    ensures var total, end := s.loops[i].attempt + Failures(s, evs, i, c), Run(s, evs, c);
      && |end.loops| == i + 1 && total <= Limit(c) + 1
      && (end.loops[i].at.Ended? <==> total == Limit(c) + 1)
      && (end.shared.running <==> total <= Limit(c) || !(0 < c.most <= LAST))
    decreases |evs|
  {
    if evs != [] {
      var n := Next(s, evs[0], c);
      CountStep(s, evs[0], i, c);
      StepKeeps(s, evs[0], c);
      if !n.loops[i].at.Ended? {
        StopsAfterMost(n, evs[1..], i, c);
      } else {
        EndedFailsNoMore(n, evs[1..], i, c);
      }
    }
  }

  /** The newest loop of a running adapter ends with the adapter neither stopped
      nor disabled exactly when it has failed 1024 times in a row before, and is
      allowed to fail once more. */
  lemma DiesIff(s: Supervised, result: Result, now: real, jitter: real, c: Config)
    requires Inv(s, c) && s.shared.running && s.loops != [] && s.loops[|s.loops| - 1].at.Connecting?
    requires result != Cancelled
    ensures var i := |s.loops| - 1;
      var n := Next(s, Resume(i, result, now, jitter), c);
      n.loops[i].at.Ended? && n.shared.running <==>
        Carried(s.shared, s.loops[i], result, now) >= LAST && (c.most <= 0 || c.most > LAST)
  {
    assert s.loops[|s.loops| - 1].generation == |s.loops|;
  }

  /** Whatever happens once the newest loop has ended, nothing connects until
      another loop begins, although the adapter goes on running. */
  lemma {:induction false} DeadStays(s: Supervised, evs: seq<Event>, c: Config)
    requires Inv(s, c) && s.loops != [] && s.loops[|s.loops| - 1].at.Ended? && NoBegin(evs)
    ensures Connects(s, evs, c) == 0
    ensures (forall k :: 0 <= k < |evs| ==> !evs[k].Stop?) ==> Run(s, evs, c).shared.running == s.shared.running
    decreases |evs|
  {
    if evs != [] {
      assert !evs[0].Begin?;
      StepKeeps(s, evs[0], c);
      forall i: nat | i + 1 < |s.loops| && Addresses(evs[0], i) ensures !BeginsConnect(s, evs[0]) {
        StaleStepHarmless(s, evs[0], i, c);
      }
      DeadStays(Next(s, evs[0], c), evs[1..], c);
    }
  }

  /** One start, then k connects that fail at once, a minute and a second apart. */
  function Outage(k: nat, c: Config): Supervised {
    if k == 0 then Next(Next(NEW, Start, c), Begin(0.0), c)
    else
      var now := 61.0 * (k - 1) as real;
      Next(Next(Outage(k - 1, c), Resume(0, Failed, now, 1.0), c), Wake(0, now + 61.0), c)
  }

  /** One loop that has failed k times in a row and connects again. */
  function Trying(k: nat, now: real): Supervised {
    Supervised(Shared(1, true, None, if k == 0 then Registered else Disconnected), [Loop(1, k, Connecting(now))], 0)
  }

  lemma FailAndWake(k: nat, now: real, later: real, c: Config)
    requires k < Limit(c)
    ensures Next(Next(Trying(k, now), Resume(0, Failed, now, 1.0), c), Wake(0, later), c) == Trying(k + 1, later)
  {
    var failed := Next(Trying(k, now), Resume(0, Failed, now, 1.0), c);
    assert failed.loops[0].at.Sleeping? && failed.loops[0].attempt == k + 1 && failed.shared.running;
  }

  lemma {:induction false} OutageIs(k: nat, c: Config)
    requires k <= Limit(c)
    ensures Outage(k, c) == Trying(k, 61.0 * k as real)
  {
    if k > 0 {
      OutageIs(k - 1, c);
      var now := 61.0 * (k - 1) as real;
      FailAndWake(k - 1, now, now + 61.0, c);
      assert now + 61.0 == 61.0 * k as real;
    }
  }

  /** With no limit on the failures, as by default, or one above 1024, the 1025th in
      a row leaves the adapter running, not disabled, and without any connect from
      then on, whatever happens but a start. */
  lemma UnlimitedGivesUp(c: Config, now: real, jitter: real, evs: seq<Event>)
    requires (c.most <= 0 || c.most > LAST) && now - 61.0 * 1024.0 < RESET && NoBegin(evs)
    ensures var s := Next(Outage(LAST, c), Resume(0, Failed, now, jitter), c);
      && s.shared.running && s.shared.status == Disconnected && |s.loops| == 1 && s.loops[0].at.Ended?
      && Connects(s, evs, c) == 0
  {
    OutageIs(LAST, c);
    var s := Next(Outage(LAST, c), Resume(0, Failed, now, jitter), c);
    DeadStays(s, evs, c);
  }

  // ---------------------------------------------------------------- backoff arithmetic

  function Pow2(k: nat): nat {
    if k == 0 then 1 else 2 * Pow2(k - 1)
  }

  lemma DoubleScale(a: real, p: real)
    ensures a * (2.0 * p) == 2.0 * (a * p)
  {
  }

  /** The k-th delay before jitter and cap is the interval times a power of two. */
  lemma {:induction false} DoubledIsPower(interval: real, k: nat)
    ensures Doubled(interval, k) == interval * Pow2(k) as real
  {
    if k > 0 {
      DoubledIsPower(interval, k - 1);
      DoubleScale(interval, Pow2(k - 1) as real);
    }
  }

  lemma ScaleMonotone(a: real, x: real, y: real)
    requires a >= 0.0 && x <= y
    ensures a * x <= a * y
  {
    NotNegative(a, y - x);
    assert a * y == a * x + a * (y - x);
  }

  lemma NotNegative(a: real, b: real)
    requires a >= 0.0 && b >= 0.0
    ensures a * b >= 0.0
  {
  }

  /** The sleep is within a fifth of the base delay, but never under the floor. */
  lemma SleepBounds(base: real, jitter: real)
    requires base >= 0.0 && 0.8 <= jitter <= 1.2
    ensures FLOOR <= Sleep(base, jitter) && base * 0.8 <= Sleep(base, jitter)
    ensures Sleep(base, jitter) <= (if base * 1.2 < FLOOR then FLOOR else base * 1.2)
  {
    var least, jittered, most := base * 0.8, base * jitter, base * 1.2;
    Scaled(base, 0.8, jitter, least, jittered);
    Scaled(base, jitter, 1.2, jittered, most);
    FlooredBetween(base, jitter, least, jittered, most);
  }

  lemma Scaled(a: real, x: real, y: real, ax: real, ay: real)
    requires a >= 0.0 && x <= y && ax == a * x && ay == a * y
    ensures ax <= ay
  {
    ScaleMonotone(a, x, y);
  }

  lemma FlooredBetween(base: real, jitter: real, least: real, jittered: real, most: real)
    requires jittered == base * jitter && least <= jittered <= most
    ensures FLOOR <= Sleep(base, jitter) && least <= Sleep(base, jitter)
    ensures Sleep(base, jitter) <= if most < FLOOR then FLOOR else most
  {
  }

  lemma {:induction false} Positive(interval: real, k: nat)
    requires interval > 0.0
    ensures Doubled(interval, k) >= interval
  {
    if k > 0 {
      Positive(interval, k - 1);
    }
  }

  /** Base delays never shrink and stay within the cap. */
  lemma DelaysGrow(c: Config, k: nat)
    requires c.interval > 0.0 && 1 <= k < LAST
    ensures BaseDelay(c, k) <= BaseDelay(c, k + 1) <= c.cap
  {
    Positive(c.interval, k - 1);
  }

  /** The base delays after the first `m` failures. */
  function TotalDelay(c: Config, m: nat): real
    requires m <= LAST
  {
    if m == 0 then 0.0 else TotalDelay(c, m - 1) + BaseDelay(c, m)
  }

  lemma {:induction false} GeometricTotal(c: Config, m: nat)
    requires c.interval > 0.0 && 1 <= m <= LAST && Doubled(c.interval, m - 1) <= c.cap
    ensures TotalDelay(c, m) == Doubled(c.interval, m) - c.interval
  {
    if m == 1 {
      assert TotalDelay(c, 0) == 0.0 && Doubled(c.interval, 0) == c.interval;
    } else {
      Positive(c.interval, m - 2);
      GeometricTotal(c, m - 1);
    }
  }

  lemma Distribute(n: real, cap: real)
    ensures (n + 1.0) * cap == n * cap + cap
    ensures 0.0 * cap == 0.0
  {
  }

  /** While the cap is not reached the delays add up to a geometric sum; in any
      case they add up to at most the cap for each failure. */
  lemma {:induction false} TotalDelayIs(c: Config, m: nat)
    requires c.interval > 0.0 && m <= LAST
    ensures m >= 1 && Doubled(c.interval, m - 1) <= c.cap ==>
      TotalDelay(c, m) == c.interval * Pow2(m) as real - c.interval
    ensures TotalDelay(c, m) <= m as real * c.cap
  {
    if m >= 1 && Doubled(c.interval, m - 1) <= c.cap {
      GeometricTotal(c, m);
      DoubledIsPower(c.interval, m);
    }
    CappedTotal(c, m);
  }

  lemma {:induction false} CappedTotal(c: Config, m: nat)
    requires m <= LAST
    ensures TotalDelay(c, m) <= m as real * c.cap
  {
    if m == 0 {
      Distribute(0.0, c.cap);
    } else {
      CappedTotal(c, m - 1);
      Distribute((m - 1) as real, c.cap);
      assert m as real == (m - 1) as real + 1.0;
    }
  }
}

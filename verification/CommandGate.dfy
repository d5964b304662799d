/** The gates a message passes before the handler of its command runs, in their
    order, with the two that keep state: cooldown and rate limit. */
module CommandGate {
  import opened RateLimiter
  import opened RateHistory
  import opened Cooldowns
  import opened Options
  import PyText

  /** What the stateless gates say about a message. */
  datatype Checks = Checks(
    blocked: bool, badText: bool, featureOff: bool, argsTooLong: bool,
    ruleFails: bool, forbidden: bool, badParams: bool)

  /** A message addressed to a known command. `at` is the clock at the cooldown
      gate, `now` and `later` are those of the limiter; a cooldown of 0 is none.
      `dropped` and `evicted` are the keys the two tables throw out for lack of room. */
  datatype Message = Message(
    user: string, command: string, cooldown: real, limit: int, window: real, checks: Checks,
    at: real, now: real, later: real, dropped: set<string>, evicted: set<string>)

  datatype Outcome =
    | Blocked | BadText | FeatureOff | CoolingDown | ArgsTooLong | RateLimited | RuleRefused | Forbidden | BadParams
    | Invoked

  datatype Gates = Gates(last: Stamps, windows: Table)

  function Key(kind: string, m: Message): string {
    kind + m.user + ":" + m.command
  }

  function CooldownKey(m: Message): string {
    Key("cooldown:", m)
  }

  function RateCall(m: Message): Call {
    Call(Key("rate:", m), m.limit, m.window, m.now, m.later, m.evicted)
  }

  /** Users have keys of their own, and so has each command of a user. */
  lemma KeysApart(kind: string, m: Message, n: Message)
    requires ':' !in m.user && ':' !in n.user && (m.user != n.user || m.command != n.command)
    ensures Key(kind, m) != Key(kind, n)
  {
    var a, b := m.user + ":" + m.command, n.user + ":" + n.command;
    assert Key(kind, m) == kind + a && Key(kind, n) == kind + b;
    assert (kind + a)[|kind|..] == a && (kind + b)[|kind|..] == b;
    UserOfKey(m.user, m.command);
    UserOfKey(n.user, n.command);
    assert a[..|m.user|] == m.user && b[..|n.user|] == n.user;
    assert a[|m.user| + 1..] == m.command && b[|n.user| + 1..] == n.command;
  }

  lemma UserOfKey(user: string, command: string)
    requires ':' !in user
    ensures PyText.IndexOf(user + ":" + command, ':') == |user|
  {
    PyText.IndexOfFirst(user, ':', command);
    assert user + [':'] + command == user + ":" + command;
  }

  predicate Cooled(last: Stamps, m: Message) {
    Ready(last, CooldownKey(m), m.cooldown, m.at)
  }

  /** A security policy is in force when `secured`. */
  predicate ReachesCooldown(m: Message, secured: bool) {
    secured && !m.checks.blocked && !m.checks.badText && !m.checks.featureOff && m.cooldown != 0.0
  }

  predicate ReachesLimiter(s: Gates, m: Message, secured: bool) {
    && secured && !m.checks.blocked && !m.checks.badText && !m.checks.featureOff
    && (m.cooldown == 0.0 || Cooled(s.last, m)) && !m.checks.argsTooLong
  }

  function EarlyVerdict(last: Stamps, m: Message, secured: bool): Option<Outcome> {
    if secured && m.checks.blocked then Some(Blocked)
    else if secured && m.checks.badText then Some(BadText)
    else if secured && m.checks.featureOff then Some(FeatureOff)
    else if ReachesCooldown(m, secured) && !Cooled(last, m) then Some(CoolingDown)
    else None
  }

  function Verdict(s: Gates, m: Message, secured: bool): Outcome {
    var refused := EarlyVerdict(s.last, m, secured);
    if refused.Some? then refused.value
    else if m.checks.argsTooLong then ArgsTooLong
    else if secured && !Granted(s.windows, RateCall(m)) then RateLimited
    else LastGates(m.checks)
  }

  function LastGates(checks: Checks): Outcome {
    if checks.ruleFails then RuleRefused
    else if checks.forbidden then Forbidden
    else if checks.badParams then BadParams
    else Invoked
  }

  function Passed(s: Gates, m: Message, secured: bool, max: nat): Gates {
    Gates(if ReachesCooldown(m, secured) then Checked(s.last, CooldownKey(m), m.cooldown, m.at, m.dropped) else s.last,
          if ReachesLimiter(s, m, secured) then After(s.windows, RateCall(m), max) else s.windows)
  }

  /** The two tables throw out what they must, and nothing when they are not reached. */
  ghost predicate Lawful(s: Gates, m: Message, secured: bool, max: nat) {
    && (if ReachesCooldown(m, secured) then Droppable(s.last, CooldownKey(m), m.cooldown, m.at, m.dropped)
        else m.dropped == {})
    && (if ReachesLimiter(s, m, secured) then Legal(s.windows, RateCall(m), max) else m.evicted == {})
  }

  /** The handler runs exactly when every gate is open; the security policy's gates
      count only when there is one. */
  lemma InvokedIff(s: Gates, m: Message, secured: bool)
    ensures Verdict(s, m, secured) == Invoked <==>
      && !m.checks.argsTooLong && !m.checks.ruleFails && !m.checks.forbidden && !m.checks.badParams
      && (secured ==>
            && !m.checks.blocked && !m.checks.badText && !m.checks.featureOff
            && (m.cooldown == 0.0 || m.at - LastOf(s.last, CooldownKey(m)) >= m.cooldown)
            && Granted(s.windows, RateCall(m)))
  {
  }

  /** A refusal names the first gate that is closed. */
  lemma RefusalNamesFirst(s: Gates, m: Message, secured: bool)
    ensures var o := Verdict(s, m, secured);
      var cooled := m.cooldown == 0.0 || m.at - LastOf(s.last, CooldownKey(m)) >= m.cooldown;
      var policy := secured ==> !m.checks.blocked && !m.checks.badText && !m.checks.featureOff && cooled;
      var limiter := policy && !m.checks.argsTooLong && (secured ==> Granted(s.windows, RateCall(m)));
      && (o == Blocked <==> secured && m.checks.blocked)
      && (o == BadText <==> secured && !m.checks.blocked && m.checks.badText)
      && (o == FeatureOff <==> secured && !m.checks.blocked && !m.checks.badText && m.checks.featureOff)
      && (o == CoolingDown <==>
            secured && !m.checks.blocked && !m.checks.badText && !m.checks.featureOff && !cooled)
      && (o == ArgsTooLong <==> policy && m.checks.argsTooLong)
      && (o == RateLimited <==>
            policy && !m.checks.argsTooLong && secured && !Granted(s.windows, RateCall(m)))
      && (o == RuleRefused <==> limiter && m.checks.ruleFails)
      && (o == Forbidden <==> limiter && !m.checks.ruleFails && m.checks.forbidden)
      && (o == BadParams <==> limiter && !m.checks.ruleFails && !m.checks.forbidden && m.checks.badParams)
  {
  }

  /** A message that is refused before the limiter leaves the limiter's table as it
      was, and one refused at or before the cooldown the cooldown table too; without a
      policy nothing changes at all. */
  lemma RefusedEarly(s: Gates, m: Message, secured: bool, max: nat)
    ensures var o, t := Verdict(s, m, secured), Passed(s, m, secured, max);
      && (!secured ==> t == s)
      && (o in {Blocked, BadText, FeatureOff, CoolingDown, ArgsTooLong} ==> t.windows == s.windows)
      && (o in {Blocked, BadText, FeatureOff, CoolingDown} || m.cooldown == 0.0 ==> t.last == s.last)
      && (secured && o !in {Blocked, BadText, FeatureOff, CoolingDown, ArgsTooLong} ==>
            t.windows == After(s.windows, RateCall(m), max))
      && (secured && o !in {Blocked, BadText, FeatureOff, CoolingDown} && m.cooldown != 0.0 ==>
            t.last == Checked(s.last, CooldownKey(m), m.cooldown, m.at, m.dropped))
  {
  }

  class CommandDispatcher {
    const cooldowns: CooldownTable
    const limiter: SlidingWindowRateLimiter
    const secured: bool

    constructor (max: nat, secured: bool)
      ensures State() == Gates(map[], map[]) && limiter.maxWindows == max && this.secured == secured
      ensures fresh(limiter) && fresh(cooldowns)
    {
      cooldowns := new CooldownTable();
      limiter := new SlidingWindowRateLimiter(max);
      this.secured := secured;
    }

    function State(): Gates
      reads this, cooldowns, limiter
    {
      Gates(cooldowns.last, limiter.windows)
    }

    method Handle(m: Message) returns (o: Outcome, ghost dropped: set<string>, ghost evicted: set<string>)
      modifies cooldowns, limiter
      ensures var done := m.(dropped := dropped, evicted := evicted);
        && o == Verdict(old(State()), done, secured)
        && Lawful(old(State()), done, secured, limiter.maxWindows)
        && State() == Passed(old(State()), done, secured, limiter.maxWindows)
    {
      evicted := {};
      var refused;
      refused, dropped := FirstGates(m);
      if refused.Some? { return refused.value, dropped, {}; }
      if m.checks.argsTooLong { return ArgsTooLong, dropped, {}; }
      if secured {
        var granted;
        granted, evicted := limiter.Allow(Key("rate:", m), m.limit, m.window, m.now, m.later);
        if !granted { return RateLimited, dropped, evicted; }
      }
      o := LastGates(m.checks);
    }

    /** The gates of the security policy up to the cooldown. */
    method FirstGates(m: Message) returns (refused: Option<Outcome>, ghost dropped: set<string>)
      modifies cooldowns
      ensures refused == EarlyVerdict(old(cooldowns.last), m, secured)
      ensures if ReachesCooldown(m, secured)
        then Droppable(old(cooldowns.last), CooldownKey(m), m.cooldown, m.at, dropped)
          && cooldowns.last == Checked(old(cooldowns.last), CooldownKey(m), m.cooldown, m.at, dropped)
        else dropped == {} && cooldowns.last == old(cooldowns.last)
    {
      dropped := {};
      if secured {
        if m.checks.blocked { return Some(Blocked), {}; }
        if m.checks.badText { return Some(BadText), {}; }
        if m.checks.featureOff { return Some(FeatureOff), {}; }
        if m.cooldown != 0.0 {
          var cooled;
          cooled, dropped := cooldowns.Check(CooldownKey(m), m.cooldown, m.at);
          if !cooled { return Some(CoolingDown), dropped; }
        }
      }
      refused := None;
    }
  }

  // ---------------------------------------------------------------- runs

  /** The limiter calls a run of messages makes. */
  function LimiterCalls(s: Gates, ms: seq<Message>, max: nat): seq<Call>
    decreases |ms|
  {
    if ms == [] then []
    else (if ReachesLimiter(s, ms[0], true) then [RateCall(ms[0])] else [])
         + LimiterCalls(Passed(s, ms[0], true, max), ms[1..], max)
  }

  /** When the handler ran for a user and command, by the limiter's clock. */
  function Invocations(s: Gates, ms: seq<Message>, key: string, max: nat): seq<real>
    decreases |ms|
  {
    if ms == [] then []
    else (if Key("rate:", ms[0]) == key && Verdict(s, ms[0], true) == Invoked then [ms[0].now] else [])
         + Invocations(Passed(s, ms[0], true, max), ms[1..], key, max)
  }

  predicate InTime(ms: seq<Message>, clock: real)
    decreases |ms|
  {
    ms == [] || (clock <= ms[0].at <= ms[0].now <= ms[0].later && InTime(ms[1..], ms[0].later))
  }

  predicate SameLimits(ms: seq<Message>, key: string, limit: int, window: real) {
    forall i :: 0 <= i < |ms| ==>
      key !in ms[i].evicted && (Key("rate:", ms[i]) == key ==> ms[i].limit == limit && ms[i].window == window)
  }

  lemma {:induction false} CallsInTime(s: Gates, ms: seq<Message>, max: nat, clock: real, earlier: real)
    requires InTime(ms, clock) && earlier <= clock
    ensures Timely(LimiterCalls(s, ms, max), earlier)
    decreases |ms|
  {
    if ms != [] {
      var s' := Passed(s, ms[0], true, max);
      if ReachesLimiter(s, ms[0], true) {
        CallsInTime(s', ms[1..], max, ms[0].later, ms[0].later);
        assert LimiterCalls(s, ms, max)[1..] == LimiterCalls(s', ms[1..], max);
      } else {
        CallsInTime(s', ms[1..], max, ms[0].later, earlier);
        assert [] + LimiterCalls(s', ms[1..], max) == LimiterCalls(s', ms[1..], max);
      }
    }
  }

  predicate Fixed(c: Call, key: string, limit: int, window: real) {
    key !in c.evicted && (c.key == key ==> c.limit == limit && c.window == window)
  }

  predicate AllFixed(calls: seq<Call>, key: string, limit: int, window: real) {
    forall i {:trigger calls[i]} :: 0 <= i < |calls| ==> Fixed(calls[i], key, limit, window)
  }

  lemma {:induction false} CallsFixed(s: Gates, ms: seq<Message>, max: nat, key: string, limit: int, window: real)
    requires SameLimits(ms, key, limit, window)
    ensures AllFixed(LimiterCalls(s, ms, max), key, limit, window)
    decreases |ms|
  {
    if ms != [] {
      assert key !in ms[0].evicted && Fixed(RateCall(ms[0]), key, limit, window);
      CallsFixed(Passed(s, ms[0], true, max), ms[1..], max, key, limit, window);
    }
  }

  lemma FixedCalls(calls: seq<Call>, key: string, limit: int, window: real)
    requires AllFixed(calls, key, limit, window) && window <= HOUR
    ensures Kept(calls, key) && OneLimit(calls, key, limit) && OneWindow(calls, key, window)
  {
    assert forall i {:trigger calls[i]} :: 0 <= i < |calls| ==> Fixed(calls[i], key, limit, window);
  }

  lemma {:induction false} WithinConcat(a: seq<real>, b: seq<real>, from: real, window: real)
    ensures Within(a + b, from, window) == Within(a, from, window) + Within(b, from, window)
    ensures WithinRight(a + b, from, window) == WithinRight(a, from, window) + WithinRight(b, from, window)
  {
    if b == [] {
      assert a + b == a;
    } else {
      assert (a + b)[..|a + b| - 1] == a + b[..|b| - 1];
      WithinConcat(a, b[..|b| - 1], from, window);
    }
  }

  /** The times the limiter said yes to a key. */
  function Yes(t: Table, calls: seq<Call>, key: string, max: nat): seq<real> {
    AcceptTimes(calls, key, Answers(t, calls, key, max))
  }

  lemma AnswersCons(t: Table, c: Call, calls: seq<Call>, key: string, max: nat)
    ensures Answers(t, [c] + calls, key, max)
         == (if c.key == key then [Granted(t, c)] else []) + Answers(After(t, c, max), calls, key, max)
  {
    assert ([c] + calls)[1..] == calls;
  }

  lemma TimesCons(c: Call, calls: seq<Call>, key: string, ok: bool, rest: seq<bool>)
    ensures AcceptTimes([c] + calls, key, (if c.key == key then [ok] else []) + rest)
         == (if c.key == key && ok then [c.now] else []) + AcceptTimes(calls, key, rest)
  {
    assert ([c] + calls)[1..] == calls && ([ok] + rest)[1..] == rest && [] + rest == rest;
    assert rest == [] ==> AcceptTimes(calls, key, rest) == [];
  }

  lemma YesStep(t: Table, c: Call, calls: seq<Call>, key: string, max: nat)
    ensures Yes(t, [c] + calls, key, max)
         == (if c.key == key && Granted(t, c) then [c.now] else []) + Yes(After(t, c, max), calls, key, max)
  {
    AnswersCons(t, c, calls, key, max);
    TimesCons(c, calls, key, Granted(t, c), Answers(After(t, c, max), calls, key, max));
  }

  /** The handler runs only when the limiter said yes. */
  lemma {:induction false} InvokedOnlyIfGranted(s: Gates, ms: seq<Message>, key: string, max: nat, from: real,
                                                window: real)
    ensures var yes := Yes(s.windows, LimiterCalls(s, ms, max), key, max);
      && Within(Invocations(s, ms, key, max), from, window) <= Within(yes, from, window)
      && WithinRight(Invocations(s, ms, key, max), from, window) <= WithinRight(yes, from, window)
    decreases |ms|
  {
    if ms != [] {
      var m, s' := ms[0], Passed(s, ms[0], true, max);
      InvokedOnlyIfGranted(s', ms[1..], key, max, from, window);
      var rest := LimiterCalls(s', ms[1..], max);
      var one := if Key("rate:", m) == key && Verdict(s, m, true) == Invoked then [m.now] else [];
      WithinConcat(one, Invocations(s', ms[1..], key, max), from, window);
      if ReachesLimiter(s, m, true) {
        YesStep(s.windows, RateCall(m), rest, key, max);
        var first := if RateCall(m).key == key && Granted(s.windows, RateCall(m)) then [m.now] else [];
        WithinConcat(first, Yes(s'.windows, rest, key, max), from, window);
      } else {
        assert [] + rest == rest;
      }
    }
  }

  /** With a security policy, the handler of a command runs for one user at most
      `limit` times in any half-open interval of the window's length. */
  lemma HandlerRateBound(ms: seq<Message>, key: string, max: nat, clock: real, limit: int, window: real, from: real)
    requires InTime(ms, clock) && SameLimits(ms, key, limit, window) && window <= HOUR
    ensures var runs := Invocations(Gates(map[], map[]), ms, key, max);
      var most := if limit < 0 then 0 else limit;
      Within(runs, from, window) <= most && WithinRight(runs, from, window) <= most
  {
    var s := Gates(map[], map[]);
    InvokedOnlyIfGranted(s, ms, key, max, from, window);
    CallsInTime(s, ms, max, clock, clock);
    CallsFixed(s, ms, max, key, limit, window);
    FixedCalls(LimiterCalls(s, ms, max), key, limit, window);
    LimiterBound(LimiterCalls(s, ms, max), key, max, clock, limit, window, from);
  }

  // ---------------------------------------------------------------- cooldown

  /** When the handler ran for a user and command, by the clock of the cooldown gate. */
  function RunTimes(s: Gates, ms: seq<Message>, key: string, max: nat): seq<real>
    decreases |ms|
  {
    if ms == [] then []
    else (if CooldownKey(ms[0]) == key && Verdict(s, ms[0], true) == Invoked then [ms[0].at] else [])
         + RunTimes(Passed(s, ms[0], true, max), ms[1..], key, max)
  }

  predicate Apart(times: seq<real>, cooldown: real) {
    forall i, j :: 0 <= i < j < |times| ==> times[i] + cooldown <= times[j]
  }

  /** Every time is at least `cooldown` after the last recorded one. */
  predicate AfterLast(last: Stamps, key: string, times: seq<real>, cooldown: real) {
    key in last ==> forall i :: 0 <= i < |times| ==> last[key] + cooldown <= times[i]
  }

  /** The table with the message's own stamp, before anything is thrown out. */
  function NotedBy(last: Stamps, m: Message): Stamps {
    if ReachesCooldown(m, true) then Noted(last, CooldownKey(m), m.cooldown, m.at) else last
  }

  /** The message has the key's cooldown if it is the key's, and does not throw the
      key out while that cooldown runs. */
  predicate Spares(s: Gates, m: Message, key: string, cooldown: real, max: nat) {
    && (CooldownKey(m) == key ==> m.cooldown == cooldown)
    && (key in NotedBy(s.last, m) && key !in Passed(s, m, true, max).last ==>
          m.at - NotedBy(s.last, m)[key] >= cooldown)
  }

  predicate AllSpare(s: Gates, ms: seq<Message>, key: string, cooldown: real, max: nat)
    decreases |ms|
  {
    ms == []
    || (Spares(s, ms[0], key, cooldown, max) && AllSpare(Passed(s, ms[0], true, max), ms[1..], key, cooldown, max))
  }

  lemma {:induction false} RunsLater(s: Gates, ms: seq<Message>, key: string, max: nat, clock: real)
    requires InTime(ms, clock)
    ensures forall i :: 0 <= i < |RunTimes(s, ms, key, max)| ==> clock <= RunTimes(s, ms, key, max)[i]
    decreases |ms|
  {
    if ms != [] {
      RunsLater(Passed(s, ms[0], true, max), ms[1..], key, max, ms[0].later);
    }
  }

  lemma CooldownStep(s: Gates, m: Message, key: string, max: nat, cooldown: real, rest: seq<real>)
    requires Spares(s, m, key, cooldown, max) && cooldown > 0.0
    requires AfterLast(Passed(s, m, true, max).last, key, rest, cooldown)
    requires forall i :: 0 <= i < |rest| ==> m.at <= rest[i]
    ensures AfterLast(s.last, key, rest, cooldown)
    ensures CooldownKey(m) == key && Verdict(s, m, true) == Invoked ==>
      AfterLast(map[key := m.at], key, rest, cooldown) && AfterLast(s.last, key, [m.at], cooldown)
  {
    var noted, last := NotedBy(s.last, m), Passed(s, m, true, max).last;
    assert key in last ==> key in noted && last[key] == noted[key];
    assert AfterLast(noted, key, rest, cooldown);
  }

  /** Two runs of a handler for one user are at least the cooldown apart, as long
      as the cooldown table does not throw the user and command out in between. */
  lemma {:induction false} HandlerCooldown(s: Gates, ms: seq<Message>, key: string, max: nat, cooldown: real,
                                           clock: real)
    requires InTime(ms, clock) && AllSpare(s, ms, key, cooldown, max) && cooldown > 0.0
    ensures Apart(RunTimes(s, ms, key, max), cooldown)
    ensures AfterLast(s.last, key, RunTimes(s, ms, key, max), cooldown)
    decreases |ms|
  {
    if ms != [] {
      var m, s' := ms[0], Passed(s, ms[0], true, max);
      HandlerCooldown(s', ms[1..], key, max, cooldown, m.later);
      RunsLater(s', ms[1..], key, max, m.later);
      var rest := RunTimes(s', ms[1..], key, max);
      CooldownStep(s, m, key, max, cooldown, rest);
      if CooldownKey(m) == key && Verdict(s, m, true) == Invoked {
        ApartCons(s.last, key, m.at, rest, cooldown);
      } else {
        assert [] + rest == rest;
      }
    }
  }

  lemma ApartCons(last: Stamps, key: string, at: real, rest: seq<real>, cooldown: real)
    requires Apart(rest, cooldown) && cooldown > 0.0
    requires AfterLast(map[key := at], key, rest, cooldown) && AfterLast(last, key, [at], cooldown)
    ensures Apart([at] + rest, cooldown) && AfterLast(last, key, [at] + rest, cooldown)
  {
    assert map[key := at][key] == at;
    assert key in last ==> last[key] + cooldown <= [at][0];
  }

  /** No other command has a shorter cooldown, and the key is not thrown out by force. */
  predicate NoneShorter(ms: seq<Message>, key: string, cooldown: real) {
    forall i :: 0 <= i < |ms| ==>
      && key !in ms[i].dropped
      && (CooldownKey(ms[i]) == key ==> ms[i].cooldown == cooldown)
      && (ms[i].cooldown == 0.0 || ms[i].cooldown >= cooldown)
  }

  /** A key with the shortest cooldown of all is never thrown out too early. */
  lemma {:induction false} ShortestIsSpared(s: Gates, ms: seq<Message>, key: string, max: nat, cooldown: real)
    requires NoneShorter(ms, key, cooldown)
    ensures AllSpare(s, ms, key, cooldown, max)
    decreases |ms|
  {
    if ms != [] {
      assert NoneShorter(ms[1..], key, cooldown);
      ShortestIsSpared(Passed(s, ms[0], true, max), ms[1..], key, max, cooldown);
    }
  }

  /** A message for another key that passes the cooldown gate opens it for the key
      before its cooldown is over exactly when it throws the key out. */
  lemma GateOpensEarlyIff(s: Gates, m: Message, own: Message, max: nat)
    requires CooldownKey(own) in s.last && CooldownKey(own) != CooldownKey(m) && own.at >= own.cooldown
    requires ReachesCooldown(m, true) && !Cooled(s.last, own)
    ensures Cooled(Passed(s, m, true, max).last, own) <==>
      && Cooled(s.last, m)
      && (CooldownKey(own) in m.dropped
          || (|NotedBy(s.last, m)| > ROOM && m.at - s.last[CooldownKey(own)] >= m.cooldown))
  {
    OpensEarlyIff(s.last, CooldownKey(own), own.cooldown, own.at, CooldownKey(m), m.cooldown, m.at, m.dropped);
  }
}

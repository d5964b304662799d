/** The limiter against the full history of accepted calls: what it decides, how
    many calls it lets through in any window, and what trimming changes. */
module RateHistory {
  import opened RateLimiter

  // ---------------------------------------------------------------- runs

  /** The clock never goes back. */
  predicate Timely(calls: seq<Call>, clock: real)
    decreases |calls|
  {
    calls == [] || (clock <= calls[0].now <= calls[0].later && Timely(calls[1..], calls[0].later))
  }

  ghost predicate LegalRun(t: Table, calls: seq<Call>, max: nat)
    decreases |calls|
  {
    calls == [] || (Legal(t, calls[0], max) && LegalRun(After(t, calls[0], max), calls[1..], max))
  }

  /** The answers to the calls for one key. */
  function Answers(t: Table, calls: seq<Call>, key: string, max: nat): seq<bool>
    decreases |calls|
  {
    if calls == [] then []
    else (if calls[0].key == key then [Granted(t, calls[0])] else [])
         + Answers(After(t, calls[0], max), calls[1..], key, max)
  }

  predicate Fits(queue: seq<real>, c: Call) {
    |Live(queue, c.now - c.window)| < c.limit
  }

  function Advance(queue: seq<real>, c: Call): seq<real> {
    Live(queue, c.now - c.window) + if Fits(queue, c) then [c.now] else []
  }

  /** The same with a queue for the key that is never trimmed. */
  function PlainAnswers(queue: seq<real>, calls: seq<Call>, key: string): seq<bool>
    decreases |calls|
  {
    if calls == [] then []
    else if calls[0].key != key then PlainAnswers(queue, calls[1..], key)
    else [Fits(queue, calls[0])] + PlainAnswers(Advance(queue, calls[0]), calls[1..], key)
  }

  /** Accepted times after `edge`. */
  function Recent(history: seq<real>, edge: real): nat {
    if history == [] then 0 else (if history[0] > edge then 1 else 0) + Recent(history[1..], edge)
  }

  /** A call is accepted exactly when fewer than `limit` accepted calls lie in
      the window that ends with it. */
  predicate Allowed(history: seq<real>, c: Call) {
    Recent(history, c.now - c.window) < c.limit
  }

  /** The answers of a limiter that keeps every accepted call for ever. */
  function FullAnswers(history: seq<real>, calls: seq<Call>, key: string): seq<bool>
    decreases |calls|
  {
    if calls == [] then []
    else if calls[0].key != key then FullAnswers(history, calls[1..], key)
    else
      var ok := Allowed(history, calls[0]);
      [ok] + FullAnswers(if ok then history + [calls[0].now] else history, calls[1..], key)
  }

  /** All accepted times of that limiter. */
  function FullHistory(history: seq<real>, calls: seq<Call>, key: string): seq<real>
    decreases |calls|
  {
    if calls == [] then history
    else FullHistory(if calls[0].key == key && Allowed(history, calls[0]) then history + [calls[0].now] else history,
                     calls[1..], key)
  }

  // ---------------------------------------------------------------- trimming by age is invisible

  predicate Ordered(queue: seq<real>, clock: real) {
    && (forall i, j :: 0 <= i < j < |queue| ==> queue[i] <= queue[j])
    && (forall i :: 0 <= i < |queue| ==> queue[i] <= clock)
  }

  predicate Before(queue: seq<real>, edge: real) {
    forall i :: 0 <= i < |queue| ==> queue[i] <= edge
  }

  /** The trimmed queue is the plain one, or was dropped when that one was an hour old. */
  predicate Tracks(trimmed: seq<real>, queue: seq<real>, clock: real) {
    Ordered(queue, clock) && (trimmed == queue || (trimmed == [] && Before(queue, clock - HOUR)))
  }

  /** No window above an hour, and no forced eviction of the key. */
  predicate Kept(calls: seq<Call>, key: string) {
    forall i :: 0 <= i < |calls| ==> key !in calls[i].evicted && (calls[i].key == key ==> calls[i].window <= HOUR)
  }

  lemma {:induction false} LiveOrdered(queue: seq<real>, edge: real, clock: real)
    requires Ordered(queue, clock)
    ensures Ordered(Live(queue, edge), clock)
    ensures Before(queue, edge) ==> Live(queue, edge) == []
  {
    if queue != [] && queue[0] <= edge {
      LiveOrdered(queue[1..], edge, clock);
    }
  }

  lemma {:induction false} LiveIsSuffix(queue: seq<real>, edge: real)
    ensures |Live(queue, edge)| <= |queue| && Live(queue, edge) == queue[|queue| - |Live(queue, edge)|..]
    ensures Before(queue[..|queue| - |Live(queue, edge)|], edge)
  {
    if queue != [] && queue[0] <= edge {
      LiveIsSuffix(queue[1..], edge);
      var k := |queue[1..]| - |Live(queue, edge)|;
      assert queue[..k + 1] == [queue[0]] + queue[1..][..k];
    }
  }

  /** Dropping a key only empties a queue that an hour has passed over. */
  lemma SweepTracks(t: Table, key: string, later: real, max: nat, out: set<string>)
    requires key !in out
    requires Ordered(Queue(t, key), later)
    ensures Tracks(Queue(Swept(t, later, max) - out, key), Queue(t, key), later)
  {
  }

  lemma TracksLonger(trimmed: seq<real>, queue: seq<real>, mid: seq<real>, clock: real, later: real)
    requires Tracks(mid, queue, clock) && clock <= later
    requires Tracks(trimmed, mid, later)
    ensures Tracks(trimmed, queue, later)
  {
  }

  lemma OwnCallTracks(t: Table, queue: seq<real>, c: Call, clock: real)
    requires Tracks(Queue(t, c.key), queue, clock) && clock <= c.now && c.window <= HOUR
    ensures Granted(t, c) == Fits(queue, c)
    ensures Queue(Entered(t, c), c.key) == Advance(queue, c) && Ordered(Advance(queue, c), c.now)
  {
    LiveOrdered(queue, c.now - c.window, clock);
    assert Remaining(t, c) == Live(queue, c.now - c.window);
  }

  lemma TrimTracks(t: Table, c: Call, key: string, max: nat, queue: seq<real>)
    requires Tracks(Queue(Entered(t, c), key), queue, c.now) && c.now <= c.later && key !in c.evicted
    ensures Tracks(Queue(After(t, c, max), key), queue, c.later)
  {
    if Granted(t, c) {
      SweepTracks(Entered(t, c), key, c.later, max, c.evicted);
      TracksLonger(Queue(After(t, c, max), key), queue, Queue(Entered(t, c), key), c.now, c.later);
    }
  }

  lemma StepTracks(t: Table, queue: seq<real>, c: Call, key: string, max: nat, clock: real)
    requires Tracks(Queue(t, key), queue, clock) && clock <= c.now <= c.later
    requires key !in c.evicted && (c.key == key ==> c.window <= HOUR)
    ensures c.key == key ==> Granted(t, c) == Fits(queue, c)
    ensures Tracks(Queue(After(t, c, max), key), if c.key == key then Advance(queue, c) else queue, c.later)
  {
    if c.key == key {
      OwnCallTracks(t, queue, c, clock);
      TrimTracks(t, c, key, max, Advance(queue, c));
    } else {
      assert Queue(Entered(t, c), key) == Queue(t, key);
      TracksLater(Queue(t, key), queue, clock, c.now);
      TrimTracks(t, c, key, max, queue);
    }
  }

  lemma TracksLater(trimmed: seq<real>, queue: seq<real>, clock: real, later: real)
    requires Tracks(trimmed, queue, clock) && clock <= later
    ensures Tracks(trimmed, queue, later)
  {
  }

  lemma KeptHead(calls: seq<Call>, key: string)
    requires calls != [] && Kept(calls, key)
    ensures key !in calls[0].evicted && (calls[0].key == key ==> calls[0].window <= HOUR)
    ensures Kept(calls[1..], key)
  {
  }

  /** Whatever is swept for being an hour old, a key that is never evicted by
      force gets the answers of a queue that is never trimmed. */
  lemma {:induction false} SweepInvisible(t: Table, queue: seq<real>, calls: seq<Call>, key: string, max: nat,
                                          clock: real)
    requires Tracks(Queue(t, key), queue, clock) && Timely(calls, clock) && Kept(calls, key)
    ensures Answers(t, calls, key, max) == PlainAnswers(queue, calls, key)
    decreases |calls|
  {
    if calls != [] {
      var c := calls[0];
      KeptHead(calls, key);
      StepTracks(t, queue, c, key, max, clock);
      var next := if c.key == key then Advance(queue, c) else queue;
      SweepInvisible(After(t, c, max), next, calls[1..], key, max, c.later);
    }
  }

  // ---------------------------------------------------------------- the window is exact

  lemma {:induction false} RecentConcat(a: seq<real>, b: seq<real>, edge: real)
    ensures Recent(a + b, edge) == Recent(a, edge) + Recent(b, edge)
  {
    if a == [] {
      assert a + b == b;
    } else {
      assert (a + b)[1..] == a[1..] + b;
      RecentConcat(a[1..], b, edge);
    }
  }

  lemma {:induction false} NoneRecent(history: seq<real>, edge: real)
    requires Before(history, edge)
    ensures Recent(history, edge) == 0
  {
    if history != [] {
      NoneRecent(history[1..], edge);
    }
  }

  lemma {:induction false} LiveCounts(queue: seq<real>, edge: real, clock: real)
    requires Ordered(queue, clock)
    ensures |Live(queue, edge)| == Recent(queue, edge)
  {
    if queue != [] {
      if queue[0] <= edge {
        LiveCounts(queue[1..], edge, clock);
      } else {
        AllRecent(queue, edge);
      }
    }
  }

  lemma {:induction false} AllRecent(queue: seq<real>, edge: real)
    requires forall i :: 0 <= i < |queue| ==> queue[i] > edge
    ensures Recent(queue, edge) == |queue|
  {
    if queue != [] {
      AllRecent(queue[1..], edge);
    }
  }

  /** The queue is the history without a part that the window has passed. */
  predicate Suffix(queue: seq<real>, history: seq<real>, clock: real, window: real) {
    && Ordered(history, clock) && |queue| <= |history|
    && queue == history[|history| - |queue|..]
    && Before(history[..|history| - |queue|], clock - window)
  }

  predicate OneWindow(calls: seq<Call>, key: string, window: real) {
    forall i :: 0 <= i < |calls| && calls[i].key == key ==> calls[i].window == window
  }

  lemma PopCounts(queue: seq<real>, history: seq<real>, clock: real, edge: real, window: real)
    requires Suffix(queue, history, clock, window) && clock - window <= edge
    ensures |Live(queue, edge)| == Recent(history, edge)
  {
    var gone := history[..|history| - |queue|];
    assert history == gone + queue;
    NoneRecent(gone, edge);
    RecentConcat(gone, queue, edge);
    assert Ordered(queue, clock);
    LiveCounts(queue, edge, clock);
  }

  lemma BeforeConcat(a: seq<real>, b: seq<real>, edge: real)
    requires Before(a, edge) && Before(b, edge)
    ensures Before(a + b, edge)
  {
  }

  lemma PopKeepsSuffix(queue: seq<real>, history: seq<real>, clock: real, now: real, window: real)
    requires Suffix(queue, history, clock, window) && clock <= now
    ensures Suffix(Live(queue, now - window), history, now, window)
  {
    var gone := history[..|history| - |queue|];
    var live := Live(queue, now - window);
    LiveIsSuffix(queue, now - window);
    var popped := queue[..|queue| - |live|];
    BeforeConcat(gone, popped, now - window);
    Rejoin(history, gone, popped, live);
  }

  lemma Rejoin(all: seq<real>, a: seq<real>, b: seq<real>, c: seq<real>)
    requires all == a + (b + c)
    ensures all[..|all| - |c|] == a + b && all[|all| - |c|..] == c
  {
  }

  lemma PushKeepsSuffix(queue: seq<real>, history: seq<real>, now: real, later: real, window: real)
    requires Suffix(queue, history, now, window) && now <= later
    ensures Suffix(queue, history, later, window)
    ensures Suffix(queue + [now], history + [now], later, window)
  {
    assert (history + [now])[..|history| - |queue|] == history[..|history| - |queue|];
  }

  lemma AdvanceIs(queue: seq<real>, c: Call)
    ensures var live := Live(queue, c.now - c.window);
      Advance(queue, c) == if Fits(queue, c) then live + [c.now] else live
  {
  }

  lemma OwnCallFits(queue: seq<real>, history: seq<real>, c: Call, clock: real)
    requires Suffix(queue, history, clock, c.window) && clock <= c.now
    ensures Fits(queue, c) == Allowed(history, c)
  {
    PopCounts(queue, history, clock, c.now - c.window, c.window);
  }

  lemma OwnCallExact(queue: seq<real>, history: seq<real>, c: Call, clock: real)
    requires Suffix(queue, history, clock, c.window) && clock <= c.now <= c.later
    ensures Fits(queue, c) == Allowed(history, c)
    ensures Suffix(Advance(queue, c), if Allowed(history, c) then history + [c.now] else history, c.later, c.window)
  {
    OwnCallFits(queue, history, c, clock);
    AdvanceIs(queue, c);
    PopKeepsSuffix(queue, history, clock, c.now, c.window);
    PushKeepsSuffix(Live(queue, c.now - c.window), history, c.now, c.later, c.window);
  }

  /** With one window for the key the queue answers like the full history. */
  lemma {:induction false} QueueIsExact(queue: seq<real>, history: seq<real>, calls: seq<Call>, key: string,
                                        clock: real, window: real)
    requires Suffix(queue, history, clock, window) && Timely(calls, clock) && OneWindow(calls, key, window)
    ensures PlainAnswers(queue, calls, key) == FullAnswers(history, calls, key)
    decreases |calls|
  {
    if calls != [] {
      var c := calls[0];
      if c.key == key {
        assert c.window == window;
        OwnCallExact(queue, history, c, clock);
        QueueIsExact(Advance(queue, c), if Allowed(history, c) then history + [c.now] else history,
                     calls[1..], key, c.later, window);
      } else {
        assert Suffix(queue, history, c.later, window);
        QueueIsExact(queue, history, calls[1..], key, c.later, window);
      }
    }
  }

  /** From an empty table, a key with one window of at most an hour that is never
      evicted by force is answered exactly by the full history of its accepts. */
  lemma SlidingWindowIsExact(calls: seq<Call>, key: string, max: nat, clock: real, window: real)
    requires Timely(calls, clock) && Kept(calls, key) && OneWindow(calls, key, window)
    ensures Answers(map[], calls, key, max) == FullAnswers([], calls, key)
  {
    SweepInvisible(map[], [], calls, key, max, clock);
    QueueIsExact([], [], calls, key, clock, window);
  }

  // ---------------------------------------------------------------- at most `limit` in any window

  /** `limit` accepts apart means a window apart. */
  predicate Spaced(history: seq<real>, limit: nat, window: real) {
    forall i, j :: 0 <= i && i + limit <= j < |history| ==> history[i] + window <= history[j]
  }

  /** The accepts in `[from, from + window)`. */
  function Within(history: seq<real>, from: real, window: real): nat {
    if history == [] then 0
    else
      var last := history[|history| - 1];
      Within(history[..|history| - 1], from, window) + if from <= last < from + window then 1 else 0
  }

  /** The accepts in `(from, from + window]`. */
  function WithinRight(history: seq<real>, from: real, window: real): nat {
    if history == [] then 0
    else
      var last := history[|history| - 1];
      WithinRight(history[..|history| - 1], from, window) + if from < last <= from + window then 1 else 0
  }

  lemma {:induction false} WithinAtMost(history: seq<real>, from: real, window: real, n: nat)
    requires n <= |history| && forall i :: 0 <= i < |history| - n ==> history[i] < from
    ensures Within(history, from, window) <= n
  {
    if |history| > 0 {
      WithinAtMost(history[..|history| - 1], from, window, if n > 0 then n - 1 else 0);
    }
  }

  lemma {:induction false} WithinRightAtMost(history: seq<real>, from: real, window: real, n: nat)
    requires n <= |history| && forall i :: 0 <= i < |history| - n ==> history[i] <= from
    ensures WithinRight(history, from, window) <= n
  {
    if |history| > 0 {
      WithinRightAtMost(history[..|history| - 1], from, window, if n > 0 then n - 1 else 0);
    }
  }

  lemma {:induction false} SpacedBounds(history: seq<real>, limit: nat, window: real, from: real)
    requires Spaced(history, limit, window) && limit > 0
    ensures Within(history, from, window) <= limit && WithinRight(history, from, window) <= limit
  {
    if history != [] {
      var init, last := history[..|history| - 1], history[|history| - 1];
      SpacedBounds(init, limit, window, from);
      var n := if limit < |history| then limit else |history|;
      if from <= last < from + window {
        WithinAtMost(history, from, window, n);
      }
      if from < last <= from + window {
        WithinRightAtMost(history, from, window, n);
      }
    }
  }

  predicate OneLimit(calls: seq<Call>, key: string, limit: int) {
    forall i :: 0 <= i < |calls| && calls[i].key == key ==> calls[i].limit == limit
  }

  lemma ManyRecent(history: seq<real>, k: nat, edge: real, clock: real)
    requires Ordered(history, clock) && k < |history| && history[k] > edge
    ensures Recent(history, edge) >= |history| - k
  {
    assert history == history[..k] + history[k..];
    RecentConcat(history[..k], history[k..], edge);
    AllRecent(history[k..], edge);
  }

  /** Fewer than `limit` recent accepts: the one `limit` places back is out of the window. */
  lemma LastIsOut(history: seq<real>, c: Call, limit: nat, clock: real)
    requires Ordered(history, clock) && 0 < limit <= |history| && c.limit == limit && Allowed(history, c)
    ensures forall i :: 0 <= i <= |history| - limit ==> history[i] <= c.now - c.window
  {
    var k := |history| - limit;
    if history[k] > c.now - c.window {
      ManyRecent(history, k, c.now - c.window, clock);
    }
  }

  lemma AcceptKeepsSpaced(history: seq<real>, c: Call, limit: nat, clock: real)
    requires Ordered(history, clock) && clock <= c.now && Spaced(history, limit, c.window) && c.limit == limit
    requires Allowed(history, c)
    ensures Spaced(history + [c.now], limit, c.window)
  {
    if limit <= |history| {
      LastIsOut(history, c, limit, clock);
    }
  }

  lemma {:induction false} HistorySpaced(history: seq<real>, calls: seq<Call>, key: string, clock: real, limit: nat,
                                         window: real)
    requires Ordered(history, clock) && Timely(calls, clock) && Spaced(history, limit, window)
    requires OneLimit(calls, key, limit) && OneWindow(calls, key, window)
    ensures Spaced(FullHistory(history, calls, key), limit, window)
    decreases |calls|
  {
    if calls != [] {
      var c := calls[0];
      if c.key == key && Allowed(history, c) {
        AcceptKeepsSpaced(history, c, limit, clock);
        HistorySpaced(history + [c.now], calls[1..], key, c.later, limit, window);
      } else {
        HistorySpaced(history, calls[1..], key, c.later, limit, window);
      }
    }
  }

  lemma {:induction false} NothingAllowed(calls: seq<Call>, key: string, limit: int)
    requires OneLimit(calls, key, limit) && limit <= 0
    ensures FullHistory([], calls, key) == []
    decreases |calls|
  {
    if calls != [] {
      NothingAllowed(calls[1..], key, limit);
    }
  }

  /** Any half-open interval of the window's length holds at most `limit` accepts. */
  lemma AtMostLimit(calls: seq<Call>, key: string, clock: real, limit: int, window: real, from: real)
    requires Timely(calls, clock) && OneLimit(calls, key, limit) && OneWindow(calls, key, window)
    ensures var history := FullHistory([], calls, key);
      var most := if limit < 0 then 0 else limit;
      Within(history, from, window) <= most && WithinRight(history, from, window) <= most
  {
    if limit > 0 {
      HistorySpaced([], calls, key, clock, limit, window);
      SpacedBounds(FullHistory([], calls, key), limit, window, from);
    } else {
      NothingAllowed(calls, key, limit);
    }
  }

  /** The times of the calls for a key that got the answer yes. */
  function AcceptTimes(calls: seq<Call>, key: string, answers: seq<bool>): seq<real>
    decreases |calls|
  {
    if calls == [] || answers == [] then []
    else if calls[0].key != key then AcceptTimes(calls[1..], key, answers)
    else (if answers[0] then [calls[0].now] else []) + AcceptTimes(calls[1..], key, answers[1..])
  }

  lemma {:induction false} FullAcceptTimes(history: seq<real>, calls: seq<Call>, key: string)
    ensures FullHistory(history, calls, key) == history + AcceptTimes(calls, key, FullAnswers(history, calls, key))
    decreases |calls|
  {
    if calls != [] {
      if calls[0].key != key {
        FullAcceptTimes(history, calls[1..], key);
      } else {
        var ok := Allowed(history, calls[0]);
        var next := if ok then history + [calls[0].now] else history;
        FullAcceptTimes(next, calls[1..], key);
        assert FullAnswers(history, calls, key)[1..] == FullAnswers(next, calls[1..], key);
      }
    }
  }

  /** The limiter lets at most `limit` calls for a key through in any half-open
      interval of its window's length. */
  lemma LimiterBound(calls: seq<Call>, key: string, max: nat, clock: real, limit: int, window: real, from: real)
    requires Timely(calls, clock) && Kept(calls, key) && OneLimit(calls, key, limit) && OneWindow(calls, key, window)
    ensures var accepted := AcceptTimes(calls, key, Answers(map[], calls, key, max));
      var most := if limit < 0 then 0 else limit;
      Within(accepted, from, window) <= most && WithinRight(accepted, from, window) <= most
  {
    SlidingWindowIsExact(calls, key, max, clock, window);
    AcceptsAreHistory(calls, key);
    AtMostLimit(calls, key, clock, limit, window, from);
  }

  lemma AcceptsAreHistory(calls: seq<Call>, key: string)
    ensures AcceptTimes(calls, key, FullAnswers([], calls, key)) == FullHistory([], calls, key)
  {
    FullAcceptTimes([], calls, key);
    var accepted := AcceptTimes(calls, key, FullAnswers([], calls, key));
    assert [] + accepted == accepted;
  }

  // ---------------------------------------------------------------- the size of the table

  /** After a call the table is within its bound again exactly when the limit is
      at least 1 or no new queue was needed: a limit below 1 leaves an empty
      queue behind and never trims. */
  lemma SizeBoundedIff(t: Table, c: Call, max: nat)
    requires |t| <= max && Legal(t, c, max)
    ensures |After(t, c, max)| <= max <==> c.limit >= 1 || c.key in t || |t| < max
  {
    var e := Entered(t, c);
    if c.key in t {
      assert e.Keys == t.Keys;
    } else {
      assert e.Keys == t.Keys + {c.key};
    }
    assert |e| == |e.Keys| && |t| == |t.Keys|;
    if Granted(t, c) {
      EvictionSize(Swept(e, c.later, max), c.evicted, max);
    }
  }

  lemma EvictionSize(t: Table, out: set<string>, max: nat)
    requires Forced(t, out, max)
    ensures |t - out| <= max
  {
    assert (t - out).Keys == t.Keys - out;
    assert |t.Keys - out| == |t.Keys| - |out|;
    assert |t| == |t.Keys| && |t - out| == |(t - out).Keys|;
  }

  lemma {:induction false} SizeBounded(t: Table, calls: seq<Call>, max: nat)
    requires |t| <= max && LegalRun(t, calls, max)
    requires forall i :: 0 <= i < |calls| ==> calls[i].limit >= 1
    ensures |AfterAll(t, calls, max)| <= max
    decreases |calls|
  {
    if calls != [] {
      SizeBoundedIff(t, calls[0], max);
      SizeBounded(After(t, calls[0], max), calls[1..], max);
    }
  }

  function AfterAll(t: Table, calls: seq<Call>, max: nat): Table
    decreases |calls|
  {
    if calls == [] then t else AfterAll(After(t, calls[0], max), calls[1..], max)
  }

  // ---------------------------------------------------------------- where exactness ends

  /** With a window above an hour the sweep is visible: a table of one key
      forgets the accept of `a` and lets `a` through again inside its window. */
  lemma LongWindowForgets()
    ensures var a, b := Call("a", 1, 7200.0, 0.0, 0.0, {}), Call("b", 1, 60.0, 3600.0, 3600.0, {});
      var again := Call("a", 1, 7200.0, 3601.0, 3601.0, {"b"});
      && Granted(map[], a) && Granted(After(After(map[], a, 1), b, 1), again)
      && !Allowed([a.now], again)
  {
    FirstAccept();
    ForgottenAccept();
    assert Recent([0.0], 3601.0 - 7200.0) == 1;
  }

  lemma FirstAccept()
    ensures Granted(map[], Call("a", 1, 7200.0, 0.0, 0.0, {}))
    ensures After(map[], Call("a", 1, 7200.0, 0.0, 0.0, {}), 1) == map["a" := [0.0]]
  {
    var t: Table := map["a" := [0.0]];
    assert [] + [0.0] == [0.0];
    assert t - {} == t && |t| == 1;
  }

  lemma ForgottenAccept()
    ensures After(map["a" := [0.0]], Call("b", 1, 60.0, 3600.0, 3600.0, {}), 1) == map["b" := [3600.0]]
  {
    var t: Table := map["a" := [0.0]];
    var c := Call("b", 1, 60.0, 3600.0, 3600.0, {});
    var e: Table := map["a" := [0.0], "b" := [3600.0]];
    assert [] + [3600.0] == [3600.0];
    assert Granted(t, c) && Entered(t, c) == e;
    assert e.Keys == {"a", "b"} && |e| == |e.Keys|;
    assert Stale(e, 3600.0 - HOUR) == {"a"};
    assert Swept(e, 3600.0, 1) == map["b" := [3600.0]];
    assert Swept(e, 3600.0, 1) - {} == Swept(e, 3600.0, 1);
  }
}

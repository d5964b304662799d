/** The sliding-window rate limiter: one queue of accept times per key, and a
    two-phase trim that keeps the table small. Times are seconds (`real`). */
module RateLimiter {
  import opened StableSort

  type Table = map<string, seq<real>>

  const HOUR := 3600.0

  /** A call with the two clock readings it makes, and the keys the trim evicts
      for lack of room. */
  datatype Call = Call(key: string, limit: int, window: real, now: real, later: real, evicted: set<string>)

  // ---------------------------------------------------------------- one call

  /** What is left of a queue once everything up to `edge` is popped. */
  function Live(queue: seq<real>, edge: real): seq<real> {
    if queue != [] && queue[0] <= edge then Live(queue[1..], edge) else queue
  }

  function Queue(t: Table, key: string): seq<real> {
    if key in t then t[key] else []
  }

  function Remaining(t: Table, c: Call): seq<real> {
    Live(Queue(t, c.key), c.now - c.window)
  }

  predicate Granted(t: Table, c: Call) {
    |Remaining(t, c)| < c.limit
  }

  function Entered(t: Table, c: Call): Table {
    t[c.key := Remaining(t, c) + if Granted(t, c) then [c.now] else []]
  }

  /** Keys with nothing after `edge`. */
  function Stale(t: Table, edge: real): set<string> {
    set k | k in t && (t[k] == [] || t[k][|t[k]| - 1] <= edge)
  }

  /** The first phase of the trim. */
  function Swept(t: Table, later: real, max: nat): Table {
    if |t| <= max then t else t - Stale(t, later - HOUR)
  }

  function FirstStamp(t: Table, key: string): real {
    if Queue(t, key) == [] then 0.0 else Queue(t, key)[0]
  }

  /** The second phase: the surplus keys, those with the smallest first stamps. */
  ghost predicate Forced(t: Table, out: set<string>, max: nat) {
    && out <= t.Keys
    && |out| == (if |t| > max then |t| - max else 0)
    && forall a, b :: a in out && b in t && b !in out ==> FirstStamp(t, a) <= FirstStamp(t, b)
  }

  function After(t: Table, c: Call, max: nat): Table {
    if Granted(t, c) then Swept(Entered(t, c), c.later, max) - c.evicted else Entered(t, c)
  }

  ghost predicate Legal(t: Table, c: Call, max: nat) {
    if Granted(t, c) then Forced(Swept(Entered(t, c), c.later, max), c.evicted, max) else c.evicted == {}
  }

  /** A refused call changes nothing but the queue of its own key, from which only what
      left the window is gone. A granted one appends its time. */
  lemma EnteredSays(t: Table, c: Call, k: string)
    ensures k != c.key ==> (k in Entered(t, c) <==> k in t) && (k in t ==> Entered(t, c)[k] == t[k])
    ensures c.key in Entered(t, c)
    ensures Granted(t, c) ==> Entered(t, c)[c.key] == Live(Queue(t, c.key), c.now - c.window) + [c.now]
    ensures !Granted(t, c) ==> Entered(t, c)[c.key] == Live(Queue(t, c.key), c.now - c.window)
    ensures Granted(t, c) <==> |Live(Queue(t, c.key), c.now - c.window)| < c.limit
    ensures c.key !in t ==> Queue(t, c.key) == []
  {
  }

  /** What is live is the end of the queue from the first time behind the edge. */
  lemma {:induction false} LiveSays(queue: seq<real>, edge: real)
    ensures var live := Live(queue, edge);
      && |live| <= |queue| && live == queue[|queue| - |live|..]
      && (live != [] ==> live[0] > edge) && forall i :: 0 <= i < |queue| - |live| ==> queue[i] <= edge
  {
    if queue != [] && queue[0] <= edge {
      LiveSays(queue[1..], edge);
    }
  }

  /** Only a granted call trims, and only above the bound: then the keys with nothing in
      the last hour go, and the surplus that is evicted for lack of room. */
  lemma TrimSays(t: Table, c: Call, max: nat, k: string)
    requires Legal(t, c, max)
    ensures var e, n := Entered(t, c), After(t, c, max);
      && (!Granted(t, c) || |e| <= max ==> n == e)
      && (k in n ==> k in e && n[k] == e[k])
      && (Granted(t, c) && |e| > max && k in e ==>
            (k in n <==> k !in c.evicted && e[k] != [] && e[k][|e[k]| - 1] > c.later - 3600.0))
  {
    var e := Entered(t, c);
    if Granted(t, c) && |e| <= max {
      assert e - {} == e;
    }
    if Granted(t, c) && |e| > max && k in e {
      var s := Swept(e, c.later, max);
      assert k in s <==> !(e[k] == [] || e[k][|e[k]| - 1] <= c.later - HOUR);
    }
  }

  /** The surplus is exactly as large as it must be, and has the smallest first times; an
      empty queue counts as time 0. */
  lemma SurplusSays(t: Table, out: set<string>, max: nat, a: string, b: string)
    requires Forced(t, out, max) && a in out && b in t && b !in out
    ensures |out| == if |t| > max then |t| - max else 0
    ensures a in t && (if t[a] == [] then 0.0 else t[a][0]) <= if t[b] == [] then 0.0 else t[b][0]
  {
    assert FirstStamp(t, a) <= FirstStamp(t, b);
  }

  lemma SameCall(t: Table, c: Call, d: Call)
    requires c.key == d.key && c.limit == d.limit && c.window == d.window && c.now == d.now
    ensures Remaining(t, c) == Remaining(t, d) && Granted(t, c) == Granted(t, d) && Entered(t, c) == Entered(t, d)
  {
  }

  class SlidingWindowRateLimiter {
    var windows: Table
    const maxWindows: nat

    constructor (max: nat)
      ensures windows == map[] && maxWindows == max
    {
      windows, maxWindows := map[], max;
    }

    /** `now` is the clock when the call starts, `later` when it trims. */
    method Allow(key: string, limit: int, window: real, now: real, later: real)
        returns (ok: bool, ghost evicted: set<string>)
      modifies this
      ensures var c := Call(key, limit, window, now, later, evicted);
        && ok == Granted(old(windows), c) && Legal(old(windows), c, maxWindows)
        && windows == After(old(windows), c, maxWindows)
    {
      evicted := {};
      ok := Enter(key, limit, window, now);
      if ok {
        evicted := Trim(later);
      }
      SameCall(old(windows), Call(key, limit, window, now, later, evicted), Call(key, limit, window, now, now, {}));
    }

    /** The call up to the trim. */
    method Enter(key: string, limit: int, window: real, now: real) returns (ok: bool)
      modifies this
      ensures var c := Call(key, limit, window, now, now, {});
        ok == Granted(old(windows), c) && windows == Entered(old(windows), c)
    {
      ghost var c := Call(key, limit, window, now, now, {});
      var queue := if key in windows then windows[key] else [];
      while queue != [] && queue[0] <= now - window
        invariant Live(queue, now - window) == Remaining(windows, c)
        decreases |queue|
      {
        queue := queue[1..];
      }
      ok := |queue| < limit;
      windows := windows[key := queue + if ok then [now] else []];
    }

    method Trim(later: real) returns (ghost evicted: set<string>)
      modifies this
      ensures var t := Swept(old(windows), later, maxWindows);
        Forced(t, evicted, maxWindows) && windows == t - evicted
    {
      evicted := {};
      if |windows| <= maxWindows {
        assert windows - {} == windows;
        return;
      }
      windows := windows - Stale(windows, later - HOUR);
      if |windows| > maxWindows {
        evicted := EvictOldest(|windows| - maxWindows);
      } else {
        assert windows - {} == windows;
      }
    }

    method EvictOldest(excess: nat) returns (evicted: set<string>)
      requires 0 < excess <= |windows| && excess == |windows| - maxWindows
      modifies this
      ensures Forced(old(windows), evicted, maxWindows) && windows == old(windows) - evicted
    {
      var t := windows;
      var keys := KeyList(t.Keys);
      var byStamp := (k: string) => FirstStamp(t, k);
      var sorted := SortBy(keys, byStamp);
      SortSorts(keys, byStamp);
      ListSize(keys, t.Keys);
      var oldest := sorted[..excess];
      evicted := KeysOf(oldest);
      PrefixIsForced(t.Keys, keys, byStamp, sorted, excess, evicted);
      assert forall k :: byStamp(k) == FirstStamp(t, k);
      windows := windows - evicted;
    }
  }

  function KeysOf(list: seq<string>): set<string> {
    set k | k in list
  }

  method KeyList(keys: set<string>) returns (list: seq<string>)
    ensures Lists(list, keys)
  {
    list := [];
    var left := keys;
    while left != {}
      invariant left <= keys && left !! KeysOf(list)
      invariant Lists(list, keys - left)
      decreases |left|
    {
      var k :| k in left;
      left := left - {k};
      list := list + [k];
    }
    assert keys - left == keys;
  }

  /** Each key once. */
  ghost predicate Lists(list: seq<string>, keys: set<string>) {
    multiset(list) == multiset(keys)
  }

  lemma ListSize(list: seq<string>, keys: set<string>)
    requires Lists(list, keys)
    ensures |list| == |keys|
    ensures forall k :: k in list <==> k in keys
  {
    assert |multiset(list)| == |list| && |multiset(keys)| == |keys|;
    forall k ensures k in list <==> k in keys {
      assert k in multiset(list) <==> k in multiset(keys);
    }
  }

  /** The first keys of the sorted list are as many as asked for, and none of the
      others has a smaller stamp. */
  lemma PrefixIsForced(all: set<string>, keys: seq<string>,
                       key: string -> real, sorted: seq<string>, n: nat, out: set<string>)
    requires Lists(keys, all) && multiset(sorted) == multiset(keys)
    requires Ascending(sorted, key) && n <= |sorted| && out == KeysOf(sorted[..n])
    ensures out <= all && |out| == n
    ensures forall a, b :: a in out && b in all && b !in out ==> key(a) <= key(b)
  {
    ListSize(sorted, all);
    Distinct(sorted, all);
    PrefixSize(sorted, n);
    forall a, b | a in out && b in all && b !in out ensures key(a) <= key(b) {
      PrefixFirst(key, sorted, n, a, b);
    }
  }

  lemma PrefixFirst(key: string -> real, sorted: seq<string>, n: nat, a: string, b: string)
    requires Ascending(sorted, key) && n <= |sorted|
    requires a in sorted[..n] && b in sorted && b !in sorted[..n]
    ensures key(a) <= key(b)
  {
    var i :| 0 <= i < n && sorted[i] == a;
    var j :| 0 <= j < |sorted| && sorted[j] == b;
    assert forall m {:trigger sorted[m]} :: 0 <= m < n ==> sorted[m] in sorted[..n];
    assert key(sorted[i]) <= key(sorted[j]);
  }

  lemma Distinct(list: seq<string>, keys: set<string>)
    requires Lists(list, keys)
    ensures forall i, j :: 0 <= i < j < |list| ==> list[i] != list[j]
  {
    forall i, j | 0 <= i < j < |list| ensures list[i] != list[j] {
      assert list == list[..j] + ([list[j]] + list[j + 1..]);
      assert multiset(list) == multiset(list[..j]) + (multiset{list[j]} + multiset(list[j + 1..]));
      assert multiset(keys)[list[j]] <= 1;
      assert list[j] !in multiset(list[..j]);
      assert list[i] in list[..j];
    }
  }

  lemma {:induction false} PrefixSize(list: seq<string>, n: nat)
    requires n <= |list|
    requires forall i, j :: 0 <= i < j < |list| ==> list[i] != list[j]
    ensures |KeysOf(list[..n])| == n
  {
    if n > 0 {
      PrefixSize(list, n - 1);
      assert list[..n] == list[..n - 1] + [list[n - 1]];
      assert KeysOf(list[..n]) == KeysOf(list[..n - 1]) + {list[n - 1]};
    }
  }
}

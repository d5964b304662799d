/** The in-memory cache: entries expire, and the least recently used one goes
    first when there is no room. Times are seconds (`real`). */
module TtlCache {
  import opened Options

  datatype Entry<T> = Entry(key: string, expires: real, value: T)

  /** The ordered dictionary, least recently used entry first. */
  type Store<T> = seq<Entry<T>>

  function Lookup<T>(d: Store<T>, key: string): Option<Entry<T>> {
    if d == [] then None else if d[0].key == key then Some(d[0]) else Lookup(d[1..], key)
  }

  function Without<T>(d: Store<T>, key: string): Store<T> {
    if d == [] then [] else if d[0].key == key then Without(d[1..], key) else [d[0]] + Without(d[1..], key)
  }

  /** The entries that have not expired. */
  function Fresh<T>(d: Store<T>, now: real): Store<T> {
    if d == [] then [] else if d[0].expires <= now then Fresh(d[1..], now) else [d[0]] + Fresh(d[1..], now)
  }

  function Newest<T>(d: Store<T>, max: nat): Store<T> {
    if |d| > max then d[|d| - max..] else d
  }

  lemma OneOlder<T>(d: Store<T>, max: nat)
    requires |d| > max
    ensures Newest(d[1..], max) == Newest(d, max)
  {
  }

  // ---------------------------------------------------------------- operations

  function Got<T>(d: Store<T>, key: string, now: real): Option<T> {
    var e := Lookup(d, key);
    if e.None? || e.value.expires <= now then None else Some(e.value.value)
  }

  function AfterGet<T>(d: Store<T>, key: string, now: real): Store<T> {
    var e := Lookup(d, key);
    if e.None? then d
    else if e.value.expires <= now then Without(d, key)
    else Without(d, key) + [e.value]
  }

  function Entered<T>(d: Store<T>, e: Entry<T>): Store<T> {
    Without(d, e.key) + [e]
  }

  /** `now` is the clock when the entry is made, `later` when the cache is trimmed. */
  function AfterSet<T>(d: Store<T>, e: Entry<T>, later: real, max: nat): Store<T> {
    Fresh(Newest(Entered(d, e), max), later)
  }

  class Cache<T> {
    var data: Store<T>
    const maxSize: nat

    constructor (max: nat)
      ensures data == [] && maxSize == max
    {
      data, maxSize := [], max;
    }

    method Get(key: string, now: real) returns (r: Option<T>)
      modifies this
      ensures r == Got(old(data), key, now) && data == AfterGet(old(data), key, now)
    {
      var item := Lookup(data, key);
      if item.None? {
        return None;
      }
      if item.value.expires <= now {
        data := Without(data, key);
        return None;
      }
      data := Without(data, key) + [item.value];
      r := Some(item.value.value);
    }

    method Set(key: string, value: T, ttl: real, now: real, later: real)
      modifies this
      ensures data == AfterSet(old(data), Entry(key, now + ttl, value), later, maxSize)
    {
      data := Without(data, key) + [Entry(key, now + ttl, value)];
      Trim(later);
    }

    method Trim(now: real)
      modifies this`data
      ensures data == Fresh(Newest(old(data), maxSize), now)
    {
      while |data| > maxSize
        invariant Newest(data, maxSize) == Newest(old(data), maxSize)
      {
        OneOlder(data, maxSize);
        data := data[1..];
      }
      data := DropExpired(data, now);
    }

    method DropExpired(all: Store<T>, now: real) returns (kept: Store<T>)
      ensures kept == Fresh(all, now)
    {
      kept := [];
      for k := 0 to |all|
        invariant Fresh(all, now) == kept + Fresh(all[k..], now)
      {
        assert all[k..][0] == all[k] && all[k..][1..] == all[k + 1..];
        if all[k].expires > now {
          kept := kept + [all[k]];
        }
      }
      assert all[|all|..] == [];
    }

    method Delete(key: string)
      modifies this
      ensures data == Without(old(data), key)
    {
      data := Without(data, key);
    }

    method Clear()
      modifies this
      ensures data == []
    {
      data := [];
    }
  }

  // ---------------------------------------------------------------- the map it stands for

  /** The map without bounds, and for each key the other keys that were set or
      hit since its own last set or hit. */
  datatype Ideal<T> = Ideal(live: map<string, (real, T)>, since: map<string, set<string>>)

  datatype Op<T> =
    | Get(key: string, now: real)
    | Set(key: string, value: T, ttl: real, now: real, later: real)
    | Delete(key: string)
    | Clear

  function Touch(since: map<string, set<string>>, key: string): map<string, set<string>> {
    (map k | k in since :: since[k] + {key})[key := {}]
  }

  function Next<T>(d: Store<T>, op: Op<T>, max: nat): Store<T> {
    match op
    case Get(key, now) => AfterGet(d, key, now)
    case Set(key, value, ttl, now, later) => AfterSet(d, Entry(key, now + ttl, value), later, max)
    case Delete(key) => Without(d, key)
    case Clear => []
  }

  /** Only setting, deleting and clearing change the map; a hit counts as a use. */
  function IdealNext<T>(m: Ideal<T>, op: Op<T>, hit: bool): Ideal<T> {
    match op
    case Get(key, _) => if hit then m.(since := Touch(m.since, key)) else m
    case Set(key, value, ttl, now, _) => Ideal(m.live[key := (now + ttl, value)], Touch(m.since, key))
    case Delete(key) => m.(live := m.live - {key})
    case Clear => m.(live := map[])
  }

  predicate Hit<T>(d: Store<T>, op: Op<T>) {
    op.Get? && Got(d, op.key, op.now).Some?
  }

  /** The clock readings of an operation do not precede `clock`, and the last of them. */
  predicate OnTime<T>(op: Op<T>, clock: real) {
    (op.Get? ==> clock <= op.now) && (op.Set? ==> clock <= op.now <= op.later)
  }

  function ClockAfter<T>(op: Op<T>, clock: real): real {
    if op.Get? then op.now else if op.Set? then op.later else clock
  }

  predicate Timely<T>(ops: seq<Op<T>>, clock: real)
    decreases |ops|
  {
    ops == [] || (OnTime(ops[0], clock) && Timely(ops[1..], ClockAfter(ops[0], clock)))
  }

  // ---------------------------------------------------------------- entries and their order

  function Keys<T>(d: Store<T>): set<string> {
    if d == [] then {} else {d[0].key} + Keys(d[1..])
  }

  predicate Distinct<T>(d: Store<T>) {
    d == [] || (d[0].key !in Keys(d[1..]) && Distinct(d[1..]))
  }

  /** The keys used after `key`. */
  function Later<T>(d: Store<T>, key: string): set<string> {
    if d == [] then {} else if d[0].key == key then Keys(d[1..]) else Later(d[1..], key)
  }

  /** Every entry says what the map says. */
  ghost predicate Agrees<T>(d: Store<T>, live: map<string, (real, T)>) {
    forall k {:trigger Lookup(d, k)} :: Lookup(d, k).Some? ==>
      k in live && live[k] == (Lookup(d, k).value.expires, Lookup(d, k).value.value)
  }

  lemma {:induction false} LookupKeys<T>(d: Store<T>, key: string)
    ensures Lookup(d, key).Some? <==> key in Keys(d)
    ensures Lookup(d, key).Some? ==> Lookup(d, key).value.key == key
  {
    if d != [] {
      LookupKeys(d[1..], key);
    }
  }

  lemma {:induction false} KeyCount<T>(d: Store<T>)
    requires Distinct(d)
    ensures |Keys(d)| == |d|
  {
    if d != [] {
      KeyCount(d[1..]);
    }
  }

  lemma {:induction false} WithoutKeeps<T>(d: Store<T>, key: string, q: string)
    requires Distinct(d)
    ensures Distinct(Without(d, key)) && Keys(Without(d, key)) == Keys(d) - {key}
    ensures |Without(d, key)| == if key in Keys(d) then |d| - 1 else |d|
    ensures q != key ==> Lookup(Without(d, key), q) == Lookup(d, q) && Later(Without(d, key), q) == Later(d, q) - {key}
  {
    if d != [] {
      WithoutKeeps(d[1..], key, q);
      if d[0].key == key {
        LaterKeys(d[1..], q);
      }
    }
  }

  lemma {:induction false} LaterKeys<T>(d: Store<T>, q: string)
    ensures Later(d, q) <= Keys(d)
  {
    if d != [] {
      LaterKeys(d[1..], q);
    }
  }

  lemma {:induction false} AppendKeeps<T>(d: Store<T>, e: Entry<T>, q: string)
    requires Distinct(d) && e.key !in Keys(d)
    ensures Distinct(d + [e]) && Keys(d + [e]) == Keys(d) + {e.key}
    ensures q in Keys(d) ==> Lookup(d + [e], q) == Lookup(d, q) && Later(d + [e], q) == Later(d, q) + {e.key}
    ensures q !in Keys(d) ==> Lookup(d + [e], q) == (if q == e.key then Some(e) else None) && Later(d + [e], q) == {}
  {
    if d == [] {
      assert d + [e] == [e];
      assert Keys([e][1..]) == {};
      assert Lookup([e][1..], q) == None;
    } else {
      assert (d + [e])[1..] == d[1..] + [e];
      AppendKeeps(d[1..], e, q);
    }
  }

  lemma {:induction false} FreshKeeps<T>(d: Store<T>, now: real, q: string)
    requires Distinct(d)
    ensures Distinct(Fresh(d, now)) && Keys(Fresh(d, now)) <= Keys(d) && |Fresh(d, now)| <= |d|
    ensures Lookup(Fresh(d, now), q).Some? ==> Lookup(Fresh(d, now), q) == Lookup(d, q)
    ensures Lookup(d, q).Some? && Lookup(d, q).value.expires > now ==>
      Lookup(Fresh(d, now), q) == Lookup(d, q) && Later(Fresh(d, now), q) <= Later(d, q)
  {
    if d != [] {
      FreshKeeps(d[1..], now, q);
      LookupKeys(d[1..], q);
      LookupKeys(Fresh(d[1..], now), q);
    }
  }

  // ---------------------------------------------------------------- the invariant

  /** The key is in the cache, with only keys behind it that were used since;
      or so many were that it may have been evicted. */
  ghost predicate Remembered<T>(d: Store<T>, m: Ideal<T>, key: string, max: nat)
    requires key in m.since
  {
    |m.since[key]| >= max || (Lookup(d, key).Some? && Later(d, key) <= m.since[key])
  }

  ghost predicate Inv<T>(d: Store<T>, m: Ideal<T>, clock: real, max: nat) {
    && Distinct(d) && |d| <= max && Agrees(d, m.live) && m.live.Keys <= m.since.Keys
    && forall k {:trigger m.live[k]} :: k in m.live && m.live[k].0 > clock ==> Remembered(d, m, k, max)
  }

  /** Entering a key: it comes last, and every other key has one more behind it. */
  lemma EnteredKeeps<T>(d: Store<T>, e: Entry<T>, q: string)
    requires Distinct(d)
    ensures var d' := Entered(d, e);
      && Distinct(d') && |d'| <= |d| + 1
      && Lookup(d', q) == (if q == e.key then Some(e) else Lookup(d, q))
      && (q != e.key ==> Later(d', q) <= Later(d, q) + {e.key})
      && (q == e.key ==> Later(d', q) == {})
  {
    WithoutKeeps(d, e.key, q);
    AppendKeeps(Without(d, e.key), e, q);
    LookupKeys(Without(d, e.key), q);
    if q !in Keys(Without(d, e.key)) && q != e.key {
      LookupKeys(d, q);
    }
  }

  lemma OneDropped<T>(d: Store<T>, q: string)
    requires d != [] && Distinct(d)
    ensures Distinct(d[1..])
    ensures Lookup(d[1..], q).Some? ==> Lookup(d[1..], q) == Lookup(d, q)
    ensures q != d[0].key ==> Lookup(d[1..], q) == Lookup(d, q) && Later(d[1..], q) == Later(d, q)
    ensures q == d[0].key ==> |Later(d, q)| == |d| - 1
  {
    KeyCount(d[1..]);
    LookupKeys(d[1..], q);
  }

  lemma SubsetSize(a: set<string>, b: set<string>)
    requires a <= b
    ensures |a| <= |b|
  {
    assert b == a + (b - a);
  }

  /** Trimming: a key is dropped for want of room only behind `max` others. */
  lemma NewestKeeps<T>(d: Store<T>, max: nat, q: string)
    requires Distinct(d) && |d| <= max + 1
    ensures var d' := Newest(d, max);
      && Distinct(d') && |d'| <= max
      && (Lookup(d', q).Some? ==> Lookup(d', q) == Lookup(d, q))
      && (Lookup(d, q).Some? ==> |Later(d, q)| >= max || (Lookup(d', q).Some? && Later(d', q) == Later(d, q)))
  {
    if |d| > max {
      assert Newest(d, max) == d[1..];
      OneDropped(d, q);
    }
  }

  lemma SetEffect<T>(d: Store<T>, e: Entry<T>, later: real, max: nat, q: string)
    requires Distinct(d) && |d| <= max
    ensures var d' := AfterSet(d, e, later, max);
      && Distinct(d') && |d'| <= max
      && (Lookup(d', q).Some? ==> Lookup(d', q) == if q == e.key then Some(e) else Lookup(d, q))
  {
    var d1 := Entered(d, e);
    EnteredKeeps(d, e, q);
    NewestKeeps(d1, max, q);
    FreshKeeps(Newest(d1, max), later, q);
  }

  /** A key that has not expired and had `used` behind it has at most `used` and
      the new key behind it, unless there are as many as the cache holds. */
  lemma SetKeepsOthers<T>(d: Store<T>, e: Entry<T>, later: real, max: nat, q: string, used: set<string>)
    requires Distinct(d) && |d| <= max && q != e.key
    requires Lookup(d, q).Some? && Lookup(d, q).value.expires > later && Later(d, q) <= used
    ensures var d' := AfterSet(d, e, later, max);
      |used + {e.key}| >= max || (Lookup(d', q).Some? && Later(d', q) <= used + {e.key})
  {
    var d1 := Entered(d, e);
    EnteredKeeps(d, e, q);
    NewestKeeps(d1, max, q);
    FreshKeeps(Newest(d1, max), later, q);
    SubsetSize(Later(d1, q), used + {e.key});
  }

  lemma SetKeepsItself<T>(d: Store<T>, e: Entry<T>, later: real, max: nat)
    requires Distinct(d) && |d| <= max && e.expires > later && max > 0
    ensures var d' := AfterSet(d, e, later, max); Lookup(d', e.key).Some? && Later(d', e.key) == {}
  {
    var d1 := Entered(d, e);
    EnteredKeeps(d, e, e.key);
    NewestKeeps(d1, max, e.key);
    FreshKeeps(Newest(d1, max), later, e.key);
  }

  lemma SetAgrees<T>(d: Store<T>, m: Ideal<T>, e: Entry<T>, later: real, max: nat)
    requires Distinct(d) && |d| <= max && Agrees(d, m.live)
    ensures Agrees(AfterSet(d, e, later, max), m.live[e.key := (e.expires, e.value)])
  {
    var d' := AfterSet(d, e, later, max);
    forall k {:trigger Lookup(d', k)} | Lookup(d', k).Some?
      ensures k == e.key || k in m.live
      ensures Lookup(d', k) == if k == e.key then Some(e) else Lookup(d, k)
    {
      SetEffect(d, e, later, max, k);
      assert k != e.key ==> Lookup(d, k).Some?;
    }
  }

  lemma SetRemembers<T>(d: Store<T>, m: Ideal<T>, e: Entry<T>, clock: real, later: real, max: nat, k: string)
    requires Inv(d, m, clock, max) && clock <= later
    requires k != e.key && k in m.live && m.live[k].0 > later
    ensures var now := Ideal(m.live[e.key := (e.expires, e.value)], Touch(m.since, e.key));
      Remembered(AfterSet(d, e, later, max), now, k, max)
  {
    assert m.live[k].0 > clock && Remembered(d, m, k, max);
    SubsetSize(m.since[k], m.since[k] + {e.key});
    if Lookup(d, k).Some? && Later(d, k) <= m.since[k] {
      SetKeepsOthers(d, e, later, max, k, m.since[k]);
    }
  }

  lemma SetStep<T>(d: Store<T>, m: Ideal<T>, op: Op<T>, clock: real, max: nat)
    requires Inv(d, m, clock, max) && op.Set? && OnTime(op, clock)
    ensures Inv(Next(d, op, max), IdealNext(m, op, false), op.later, max)
  {
    var e := Entry(op.key, op.now + op.ttl, op.value);
    var d', m' := AfterSet(d, e, op.later, max), IdealNext(m, op, false);
    SetEffect(d, e, op.later, max, e.key);
    SetAgrees(d, m, e, op.later, max);
    forall k {:trigger m'.live[k]} | k in m'.live && m'.live[k].0 > op.later ensures Remembered(d', m', k, max) {
      if k != e.key {
        SetRemembers(d, m, e, clock, op.later, max, k);
      } else if max > 0 {
        SetKeepsItself(d, e, op.later, max);
      }
    }
  }

  lemma HitStep<T>(d: Store<T>, m: Ideal<T>, op: Op<T>, clock: real, max: nat)
    requires Inv(d, m, clock, max) && op.Get? && OnTime(op, clock) && Hit(d, op)
    ensures Inv(Next(d, op, max), IdealNext(m, op, true), op.now, max)
  {
    var e := Lookup(d, op.key).value;
    var d', m' := Entered(d, e), IdealNext(m, op, true);
    LookupKeys(d, op.key);
    WithoutKeeps(d, op.key, op.key);
    EnteredKeeps(d, e, op.key);
    forall k {:trigger Lookup(d', k)} | Lookup(d', k).Some?
      ensures k in m'.live && m'.live[k] == (Lookup(d', k).value.expires, Lookup(d', k).value.value)
    {
      EnteredKeeps(d, e, k);
      assert Lookup(d, k).Some?;
    }
    forall k {:trigger m'.live[k]} | k in m'.live && m'.live[k].0 > op.now ensures Remembered(d', m', k, max) {
      EnteredKeeps(d, e, k);
      if k != op.key {
        assert m.live[k].0 > clock && Remembered(d, m, k, max);
        SubsetSize(m.since[k], m.since[k] + {op.key});
      }
    }
  }

  /** Dropping a key that has expired or is deleted. */
  lemma DropStep<T>(d: Store<T>, m: Ideal<T>, key: string, m': Ideal<T>, clock: real, later: real, max: nat)
    requires Inv(d, m, clock, max) && clock <= later && m'.since == m.since
    requires m' == m || m' == m.(live := m.live - {key})
    requires key in m'.live ==> m'.live[key].0 <= later
    ensures Inv(Without(d, key), m', later, max)
  {
    WithoutKeeps(d, key, key);
    LookupKeys(Without(d, key), key);
    var d' := Without(d, key);
    forall k {:trigger Lookup(d', k)} | Lookup(d', k).Some?
      ensures k in m'.live && m'.live[k] == (Lookup(d', k).value.expires, Lookup(d', k).value.value)
    {
      WithoutKeeps(d, key, k);
      assert Lookup(d, k).Some?;
    }
    forall k {:trigger m'.live[k]} | k in m'.live && m'.live[k].0 > later ensures Remembered(d', m', k, max) {
      WithoutKeeps(d, key, k);
      assert m.live[k].0 > clock && Remembered(d, m, k, max);
    }
  }

  /** Every operation keeps the invariant. */
  lemma StepKeeps<T>(d: Store<T>, m: Ideal<T>, op: Op<T>, clock: real, max: nat)
    requires Inv(d, m, clock, max) && OnTime(op, clock)
    ensures Inv(Next(d, op, max), IdealNext(m, op, Hit(d, op)), ClockAfter(op, clock), max)
  {
    match op
    case Set(_, _, _, _, _) => SetStep(d, m, op, clock, max);
    case Delete(key) => DropStep(d, m, key, m.(live := m.live - {key}), clock, clock, max);
    case Clear =>
    case Get(key, now) =>
      if Hit(d, op) {
        HitStep(d, m, op, clock, max);
      } else if Lookup(d, key).Some? {
        DropStep(d, m, key, m, clock, now, max);
      } else {
        assert forall k {:trigger m.live[k]} :: k in m.live && m.live[k].0 > now ==> Remembered(d, m, k, max);
      }
  }

  // ---------------------------------------------------------------- runs

  function RunStore<T>(d: Store<T>, ops: seq<Op<T>>, max: nat): Store<T>
    decreases |ops|
  {
    if ops == [] then d else RunStore(Next(d, ops[0], max), ops[1..], max)
  }

  function RunIdeal<T>(d: Store<T>, m: Ideal<T>, ops: seq<Op<T>>, max: nat): Ideal<T>
    decreases |ops|
  {
    if ops == [] then m
    else RunIdeal(Next(d, ops[0], max), IdealNext(m, ops[0], Hit(d, ops[0])), ops[1..], max)
  }

  function ClockAfterAll<T>(ops: seq<Op<T>>, clock: real): real
    decreases |ops|
  {
    if ops == [] then clock else ClockAfterAll(ops[1..], ClockAfter(ops[0], clock))
  }

  lemma {:induction false} RunKeeps<T>(d: Store<T>, m: Ideal<T>, ops: seq<Op<T>>, clock: real, max: nat)
    requires Inv(d, m, clock, max) && Timely(ops, clock)
    ensures Inv(RunStore(d, ops, max), RunIdeal(d, m, ops, max), ClockAfterAll(ops, clock), max)
    decreases |ops|
  {
    if ops != [] {
      StepKeeps(d, m, ops[0], clock, max);
      RunKeeps(Next(d, ops[0], max), IdealNext(m, ops[0], Hit(d, ops[0])), ops[1..], ClockAfter(ops[0], clock), max);
    }
  }

  /** After any run from an empty cache: it holds at most `max` entries; a hit is
      the last value set for the key, not deleted and not expired; and a key
      that was set and has neither expired nor been deleted is missed only if
      at least `max` other keys were set or hit since its last set or hit. */
  lemma CacheIsTheMap<T>(ops: seq<Op<T>>, clock: real, max: nat, key: string, now: real)
    requires Timely(ops, clock) && ClockAfterAll(ops, clock) <= now
    ensures var d: Store<T> := RunStore([], ops, max);
      var m := RunIdeal([], Ideal(map[], map[]), ops, max);
      && |d| <= max
      && (Got(d, key, now).Some? ==> key in m.live && m.live[key].1 == Got(d, key, now).value && m.live[key].0 > now)
      && (Got(d, key, now).None? && key in m.live && m.live[key].0 > now ==>
            key in m.since && |m.since[key]| >= max)
  {
    var m0: Ideal<T> := Ideal(map[], map[]);
    var d: Store<T>, m := RunStore([], ops, max), RunIdeal([], m0, ops, max);
    RunKeeps([], m0, ops, clock, max);
    assert Lookup(d, key).Some? ==> m.live[key] == (Lookup(d, key).value.expires, Lookup(d, key).value.value);
    assert key in m.live && m.live[key].0 > now ==> Remembered(d, m, key, max);
  }

  // ---------------------------------------------------------------- what each operation does

  lemma {:induction false} FreshSays<T>(d: Store<T>, now: real, x: Entry<T>)
    ensures x in Fresh(d, now) <==> x in d && x.expires > now
    ensures (forall e :: e in d ==> e.expires > now) ==> Fresh(d, now) == d
  {
    if d != [] {
      FreshSays(d[1..], now, x);
      assert d == [d[0]] + d[1..];
    }
  }

  /** A live entry is returned and moves behind all others; an expired one is dropped;
      every other entry stays. */
  lemma GetSays<T>(d: Store<T>, key: string, now: real, q: string)
    requires Distinct(d)
    ensures var e, n := Lookup(d, key), AfterGet(d, key, now);
      var live := e.Some? && e.value.expires > now;
      && (Got(d, key, now).Some? <==> live) && (live ==> Got(d, key, now) == Some(e.value.value))
      && (live ==> n != [] && n[|n| - 1] == e.value && |n| == |d|)
      && (e.Some? && !live ==> Lookup(n, key) == None) && (e.None? ==> n == d)
      && (q != key ==> Lookup(n, q) == Lookup(d, q) && Later(n, q) - {key} == Later(d, q) - {key})
  {
    LookupKeys(d, key);
    WithoutKeeps(d, key, q);
    WithoutKeeps(d, key, key);
    LookupKeys(Without(d, key), key);
    var e := Lookup(d, key);
    if e.Some? && e.value.expires > now {
      AppendKeeps(Without(d, key), e.value, q);
      LookupKeys(d, q);
      LookupKeys(Without(d, key), q);
      if q !in Keys(d) {
        LaterOfAbsent(d, q);
      }
    }
  }

  lemma {:induction false} LaterOfAbsent<T>(d: Store<T>, q: string)
    requires q !in Keys(d)
    ensures Later(d, q) == {}
  {
    if d != [] {
      LaterOfAbsent(d[1..], q);
    }
  }

  /** The newest entries stay as far as there is room. */
  lemma NewestSays<T>(d: Store<T>, max: nat)
    ensures var kept := Newest(d, max);
      && |kept| <= max && |kept| <= |d| && kept == d[|d| - |kept|..] && (|kept| < max ==> kept == d)
  {
  }

  /** A new entry goes behind all others, of which the newest stay; whatever has
      expired is gone afterwards. */
  lemma SetSays<T>(d: Store<T>, e: Entry<T>, later: real, max: nat, x: Entry<T>)
    ensures var n, kept := AfterSet(d, e, later, max), Newest(Without(d, e.key) + [e], max);
      && (x in n <==> x in kept && x.expires > later)
      && ((forall y :: y in kept ==> y.expires > later) ==> n == kept)
  {
    FreshSays(Newest(Entered(d, e), max), later, x);
  }

  /** Deleting takes the entry of the key and no other. */
  lemma DeleteSays<T>(d: Store<T>, key: string, q: string)
    requires Distinct(d)
    ensures Lookup(Without(d, key), q) == if q == key then None else Lookup(d, q)
  {
    WithoutKeeps(d, key, q);
    WithoutKeeps(d, key, key);
    LookupKeys(Without(d, key), key);
  }
}

/** The cooldown table: the last run of each user and command, and what is
    thrown out of it when it grows too large. Times are seconds (`real`). */
module Cooldowns {
  import opened StableSort
  import opened RateLimiter

  type Stamps = map<string, real>

  /** The table is trimmed above this size. */
  const ROOM: nat := 10000

  function LastOf(last: Stamps, key: string): real {
    if key in last then last[key] else 0.0
  }

  predicate Ready(last: Stamps, key: string, cooldown: real, at: real) {
    at - LastOf(last, key) >= cooldown
  }

  /** Keys whose last run is `cooldown` ago, whatever their own cooldown is. */
  function Over(last: Stamps, at: real, cooldown: real): set<string> {
    set k | k in last && at - last[k] >= cooldown
  }

  function Thinned(last: Stamps, at: real, cooldown: real): Stamps {
    if |last| <= ROOM then last else last - Over(last, at, cooldown)
  }

  /** The surplus keys, those with the smallest stamps. */
  ghost predicate Surplus(last: Stamps, out: set<string>) {
    && out <= last.Keys
    && |out| == (if |last| > ROOM then |last| - ROOM else 0)
    && forall a, b :: a in out && b in last && b !in out ==> last[a] <= last[b]
  }

  /** The table with the new stamp, before it is trimmed. */
  function Noted(last: Stamps, key: string, cooldown: real, at: real): Stamps {
    if Ready(last, key, cooldown, at) then last[key := at] else last
  }

  function Checked(last: Stamps, key: string, cooldown: real, at: real, dropped: set<string>): Stamps {
    if Ready(last, key, cooldown, at) then Thinned(last[key := at], at, cooldown) - dropped else last
  }

  ghost predicate Droppable(last: Stamps, key: string, cooldown: real, at: real, dropped: set<string>) {
    if Ready(last, key, cooldown, at) then Surplus(Thinned(last[key := at], at, cooldown), dropped) else dropped == {}
  }

  class CooldownTable {
    var last: Stamps

    constructor ()
      ensures last == map[]
    {
      last := map[];
    }

    /** Passes when the cooldown is over, and then starts it again. */
    method Check(key: string, cooldown: real, at: real) returns (ok: bool, ghost dropped: set<string>)
      modifies this
      ensures ok <==> Ready(old(last), key, cooldown, at)
      ensures Droppable(old(last), key, cooldown, at, dropped)
      ensures last == Checked(old(last), key, cooldown, at, dropped)
    {
      dropped := {};
      if at - (if key in last then last[key] else 0.0) < cooldown {
        return false, {};
      }
      last := last[key := at];
      if |last| > ROOM {
        dropped := Evict(at, cooldown);
      } else {
        assert last - {} == last;
      }
      ok := true;
    }

    method Evict(at: real, cooldown: real) returns (ghost dropped: set<string>)
      requires |last| > ROOM
      modifies this
      ensures var t := Thinned(old(last), at, cooldown); Surplus(t, dropped) && last == t - dropped
    {
      dropped := {};
      last := last - Over(last, at, cooldown);
      if |last| > ROOM {
        dropped := EvictOldest(|last| - ROOM);
      } else {
        assert last - {} == last;
      }
    }

    method EvictOldest(excess: nat) returns (dropped: set<string>)
      requires 0 < excess <= |last| && excess == |last| - ROOM
      modifies this
      ensures Surplus(old(last), dropped) && last == old(last) - dropped
    {
      var t := last;
      var keys := KeyList(t.Keys);
      var byStamp := (k: string) => LastOf(t, k);
      var sorted := SortBy(keys, byStamp);
      SortSorts(keys, byStamp);
      ListSize(keys, t.Keys);
      dropped := KeysOf(sorted[..excess]);
      PrefixIsForced(t.Keys, keys, byStamp, sorted, excess, dropped);
      last := last - dropped;
    }
  }

  /** A check that fails changes nothing. One that passes, when no earlier run is recorded
      because the clock is past the cooldown or else because that run is so long ago,
      stamps its key; only above 10,000 keys it drops others, those that are as old as
      its own cooldown and the surplus. */
  lemma CheckSays(last: Stamps, key: string, cooldown: real, at: real, dropped: set<string>, k: string)
    requires Droppable(last, key, cooldown, at, dropped)
    ensures var n, noted := Checked(last, key, cooldown, at, dropped), last[key := at];
      && (key in last ==> (Ready(last, key, cooldown, at) <==> at >= last[key] + cooldown))
      && (key !in last ==> (Ready(last, key, cooldown, at) <==> at >= cooldown))
      && (!Ready(last, key, cooldown, at) ==> n == last)
      && (Ready(last, key, cooldown, at) && |noted| <= 10000 ==> n == noted)
      && (Ready(last, key, cooldown, at) && |noted| > 10000 ==>
            && (k in n <==> k in noted && k !in dropped && at - noted[k] < cooldown)
            && (k in n ==> n[k] == noted[k]))
  {
    var noted := last[key := at];
    if Ready(last, key, cooldown, at) && |noted| <= 10000 {
      assert noted - {} == noted;
    }
  }

  /** After a check the table is within its bound again. */
  lemma StaysSmall(last: Stamps, key: string, cooldown: real, at: real, dropped: set<string>)
    requires |last| <= ROOM && Droppable(last, key, cooldown, at, dropped)
    ensures |Checked(last, key, cooldown, at, dropped)| <= ROOM
  {
    if Ready(last, key, cooldown, at) {
      var t := Thinned(last[key := at], at, cooldown);
      assert (t - dropped).Keys == t.Keys - dropped;
      assert |t.Keys - dropped| == |t.Keys| - |dropped|;
      assert |t| == |t.Keys| && |t - dropped| == |(t - dropped).Keys|;
    }
  }

  /** A check for another key lets a key in before its cooldown is over exactly when
      it drops the key: by force, or because the table is too large and the
      cooldown of the other command is over for it. */
  lemma OpensEarlyIff(last: Stamps, key: string, cooldown: real, now: real,
                      other: string, shorter: real, at: real, dropped: set<string>)
    requires key in last && key != other && now >= cooldown && !Ready(last, key, cooldown, now)
    ensures Ready(Checked(last, other, shorter, at, dropped), key, cooldown, now) <==>
      && Ready(last, other, shorter, at)
      && (key in dropped || (|last[other := at]| > ROOM && at - last[key] >= shorter))
  {
    var t := last[other := at];
    assert key in t && t[key] == last[key];
    assert key in Thinned(t, at, shorter) ==> Thinned(t, at, shorter)[key] == last[key];
  }
}

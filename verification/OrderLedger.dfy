/** The order table of the ledger plugin and the handlers that move an order
    through its life: recorded, taken, completed. Each handler is one step. */
module OrderLedger {
  import opened StableSort
  import opened Options

  /** 未接单, 已接单, 已完成, 已取消. */
  datatype Status = Untaken | Taken | Completed | Withdrawn

  /** One row. Times are seconds; a time that is empty or unreadable is `None`.
      `born` counts the recorded orders; it is history only, no decision depends on it. */
  datatype Order = Order(
    id: nat,
    born: nat,
    group: string,
    number: int,
    price: real,
    creator: string,
    creatorNick: string,
    player: string,
    playerNick: string,
    status: Status,
    created: Option<int>,
    taken: Option<int>,
    completed: Option<int>,
    confirmer: string)

  /** The table, and how many orders were ever recorded (history only). Row ids
      are the database's: it may give out the id of a deleted row again. */
  datatype Ledger = Ledger(rows: seq<Order>, recorded: nat)

  // ---------------------------------------------------------------- queries

  function MaxNumber(rows: seq<Order>, group: string): Option<int> {
    if rows == [] then None
    else
      var rest := MaxNumber(rows[1..], group);
      if rows[0].group != group then rest
      else if rest.Some? && rest.value > rows[0].number then rest
      else Some(rows[0].number)
  }

  function NextNumber(rows: seq<Order>, group: string): int {
    var m := MaxNumber(rows, group);
    (if m.Some? then m.value else 0) + 1
  }

  /** No order of the group has the next number yet. */
  lemma {:induction false} NextNumberIsFree(rows: seq<Order>, group: string, o: Order)
    requires o in rows && o.group == group
    ensures MaxNumber(rows, group).Some? && o.number <= MaxNumber(rows, group).value
    ensures o.number < NextNumber(rows, group)
  {
    if o != rows[0] || o in rows[1..] {
      NextNumberIsFree(rows[1..], group, o);
    }
  }

  function Find(rows: seq<Order>, group: string, number: int): (i: Option<nat>)
    ensures i.Some? ==> i.value < |rows| && rows[i.value].group == group && rows[i.value].number == number
    ensures i.None? ==> forall k :: 0 <= k < |rows| ==> rows[k].group != group || rows[k].number != number
  {
    if rows == [] then None
    else if rows[0].group == group && rows[0].number == number then Some(0)
    else
      var r := Find(rows[1..], group, number);
      if r.Some? then Some(r.value + 1) else None
  }

  // ---------------------------------------------------------------- steps

  datatype Event =
    | Record(group: string, price: real, creator: string, nick: string, now: int, id: nat)
    | Take(group: string, number: int, user: string, nick: string, now: int)
    | Complete(group: string, number: int, user: string, admin: bool, now: int)
    | PlainConfirm(group: string, number: int, user: string, admin: bool, now: int)
    | CancelTake(group: string, number: int, user: string, admin: bool)
    | Reprice(group: string, number: int, user: string, admin: bool, price: real)
    | Delete(group: string, number: int, admin: bool)
    | Purge(ids: set<nat>)
    | RestoreOverdue(group: string, now: int, days: int)

  function NewOrder(s: Ledger, ev: Event): Order
    requires ev.Record?
  {
    Order(ev.id, s.recorded, ev.group, NextNumber(s.rows, ev.group), ev.price, ev.creator, ev.nick, "", "",
          Untaken, Some(ev.now), None, None, "")
  }

  /** The fields an import brings along; a missing one keeps its first value. */
  datatype Fields = Fields(
    created: Option<int>,
    taken: Option<Option<int>>,
    completed: Option<Option<int>>,
    status: Option<Status>,
    player: Option<string>,
    playerNick: Option<string>,
    confirmer: Option<string>)

  const NOTHING := Fields(None, None, None, None, None, None, None)

  function Given<T>(preset: Option<T>, value: T): T {
    if preset.Some? then preset.value else value
  }

  function SetFields(o: Order, f: Fields): Order {
    o.(created := if f.created.Some? then f.created else o.created,
       taken := Given(f.taken, o.taken),
       completed := Given(f.completed, o.completed),
       status := Given(f.status, o.status),
       player := Given(f.player, o.player),
       playerNick := Given(f.playerNick, o.playerNick),
       confirmer := Given(f.confirmer, o.confirmer))
  }

  /** A number of 0 counts as none. */
  predicate Asked(number: Option<int>) {
    number.Some? && number.value != 0
  }

  /** A new order as an import stores it. */
  function Imported(o: Order, number: Option<int>, f: Fields): Order {
    SetFields(if Asked(number) then o.(number := number.value) else o, f)
  }

  predicate MayConfirm(o: Order, user: string, admin: bool) {
    o.creator == user || o.player == user || admin
  }

  predicate Overdue(o: Order, group: string, now: int, days: int) {
    o.group == group && o.status == Taken && o.taken.Some? && now - o.taken.value >= days * 86400
  }

  function Restored(o: Order): Order {
    o.(status := Untaken, player := "", playerNick := "")
  }

  /** What an event does to the row it is addressed to; `None` when it is refused. */
  function Change(o: Order, ev: Event): Option<Order> {
    match ev
    case Take(_, _, user, nick, now) =>
      if o.status != Untaken then None
      else Some(o.(status := Taken, player := user, playerNick := nick, taken := Some(now)))
    case Complete(_, _, user, admin, now) =>
      if o.status != Taken || !MayConfirm(o, user, admin) then None
      else Some(o.(status := Completed, completed := Some(now), confirmer := user))
    case PlainConfirm(_, _, user, admin, now) =>
      if user == "" || o.status != Taken || !MayConfirm(o, user, admin) then None
      else Some(o.(status := Completed, completed := Some(now), confirmer := user))
    case CancelTake(_, _, user, admin) =>
      if o.status != Taken || !(o.player == user || admin) then None
      else Some(o.(status := Untaken, player := "", playerNick := "", taken := None))
    case Reprice(_, _, user, admin, price) =>
      if price < 0.0 || !(o.creator == user || admin) then None
      else Some(o.(price := price))
    case _ => None
  }

  /** The handler finds the order and does not refuse. */
  predicate Accepted(s: Ledger, ev: Event)
    requires Addressed(ev)
  {
    var i := Find(s.rows, ev.group, ev.number);
    ev.group != "" && i.Some? && Change(s.rows[i.value], ev).Some?
  }

  predicate Addressed(ev: Event) {
    ev.Take? || ev.Complete? || ev.PlainConfirm? || ev.CancelTake? || ev.Reprice?
  }

  function Apply(s: Ledger, ev: Event): Ledger {
    match ev
    case Record(group, price, _, _, _, _) =>
      if group == "" || price < 0.0 then s
      else Ledger(s.rows + [NewOrder(s, ev)], s.recorded + 1)
    case Delete(group, number, admin) =>
      var i := Find(s.rows, group, number);
      if group == "" || !admin || i.None? then s
      else s.(rows := s.rows[..i.value] + s.rows[i.value + 1..])
    case Purge(ids) => s.(rows := Without(s.rows, ids))
    case RestoreOverdue(group, now, days) => s.(rows := RestoreRows(s.rows, group, now, days))
    case _ =>
      var i := Find(s.rows, ev.group, ev.number);
      if ev.group == "" || i.None? then s
      else
        var o := Change(s.rows[i.value], ev);
        if o.None? then s else s.(rows := s.rows[i.value := o.value])
  }

  function Without(rows: seq<Order>, ids: set<nat>): seq<Order> {
    if rows == [] then []
    else (if rows[0].id in ids then [] else [rows[0]]) + Without(rows[1..], ids)
  }

  function RestoreRows(rows: seq<Order>, group: string, now: int, days: int): (r: seq<Order>)
    ensures |r| == |rows|
    ensures forall i :: 0 <= i < |rows| ==>
      r[i] == if Overdue(rows[i], group, now, days) then Restored(rows[i]) else rows[i]
  {
    seq(|rows|, i requires 0 <= i < |rows| => if Overdue(rows[i], group, now, days) then Restored(rows[i]) else rows[i])
  }

  // ---------------------------------------------------------------- invariant

  /** Row ids are distinct, numbers are distinct within a group, and every order
      is in a proper state of its life. */
  ghost predicate Inv(s: Ledger) {
    && (forall i :: 0 <= i < |s.rows| ==> s.rows[i].born < s.recorded && Sound(s.rows[i]))
    && AllApart(s.rows)
  }

  predicate Apart(a: Order, b: Order) {
    a.id != b.id && a.born != b.born && (a.group == b.group ==> a.number != b.number)
  }

  /** An order is untaken exactly when it has no player, nobody withdraws it,
      and it has a creator and a price of at least 0. */
  predicate Sound(o: Order) {
    && (o.status == Untaken <==> o.player == "")
    && o.status != Withdrawn && o.creator != "" && o.price >= 0.0
  }

  /** The event is refused, or it carries the acting user's id where that id is stored. */
  predicate NamesUser(s: Ledger, ev: Event) {
    match ev
    case Record(group, price, creator, _, _, _) => group == "" || price < 0.0 || creator != ""
    case Take(group, number, user, _, _) =>
      var i := Find(s.rows, group, number);
      group == "" || i.None? || s.rows[i.value].status != Untaken || user != ""
    case _ => true
  }

  predicate UnusedId(rows: seq<Order>, id: nat) {
    forall i :: 0 <= i < |rows| ==> rows[i].id != id
  }

  /** The database gives a new row an id that no row of the table has. */
  predicate Possible(s: Ledger, ev: Event) {
    ev.Record? ==> UnusedId(s.rows, ev.id)
  }

  lemma {:induction false} WithoutRows(rows: seq<Order>, ids: set<nat>)
    ensures forall o :: o in Without(rows, ids) <==> o in rows && o.id !in ids
  {
    if rows != [] {
      WithoutRows(rows[1..], ids);
      assert rows == [rows[0]] + rows[1..];
    }
  }

  ghost predicate AllApart(rows: seq<Order>) {
    forall i, j {:trigger Apart(rows[i], rows[j])} :: 0 <= i < j < |rows| ==> Apart(rows[i], rows[j])
  }

  lemma ApartCons(o: Order, rows: seq<Order>)
    ensures AllApart([o] + rows) <==>
      AllApart(rows) && forall k {:trigger rows[k]} :: 0 <= k < |rows| ==> Apart(o, rows[k])
  {
    var all := [o] + rows;
    if AllApart(all) {
      forall k {:trigger rows[k]} | 0 <= k < |rows| ensures Apart(o, rows[k]) {
        assert Apart(all[0], all[k + 1]);
      }
      forall i, j | 0 <= i < j < |rows| ensures Apart(rows[i], rows[j]) {
        assert Apart(all[i + 1], all[j + 1]);
      }
    }
  }

  lemma {:induction false} WithoutApart(rows: seq<Order>, ids: set<nat>)
    requires AllApart(rows)
    ensures AllApart(Without(rows, ids))
  {
    if rows != [] {
      assert rows == [rows[0]] + rows[1..];
      ApartCons(rows[0], rows[1..]);
      WithoutApart(rows[1..], ids);
      WithoutRows(rows[1..], ids);
      var r := Without(rows[1..], ids);
      forall k {:trigger r[k]} | 0 <= k < |r| ensures Apart(rows[0], r[k]) {
        assert r[k] in rows[1..];
      }
      ApartCons(rows[0], r);
    }
  }

  /** A row with a free number keeps the invariant exactly when it is sound itself. */
  lemma InsertKeepsIff(s: Ledger, o: Order)
    requires Inv(s) && UnusedId(s.rows, o.id) && o.born == s.recorded && Find(s.rows, o.group, o.number).None?
    ensures Inv(Ledger(s.rows + [o], s.recorded + 1)) <==> Sound(o)
  {
    assert (s.rows + [o])[|s.rows|] == o;
    forall i | 0 <= i < |s.rows| ensures Apart(s.rows[i], o) {
    }
  }

  lemma FreeNumber(rows: seq<Order>, group: string)
    ensures Find(rows, group, NextNumber(rows, group)).None?
  {
    var i := Find(rows, group, NextNumber(rows, group));
    if i.Some? {
      NextNumberIsFree(rows, group, rows[i.value]);
    }
  }

  lemma RecordKeeps(s: Ledger, ev: Event)
    requires Inv(s) && ev.Record? && Possible(s, ev) && ev.group != "" && ev.price >= 0.0
    ensures Inv(Apply(s, ev)) <==> ev.creator != ""
  {
    FreeNumber(s.rows, ev.group);
    InsertKeepsIff(s, NewOrder(s, ev));
  }

  /** An import keeps the invariant exactly when the fields it brings along agree:
      taken or completed with a player, untaken without, never withdrawn, and the
      order has a creator and a price of at least 0. */
  lemma ImportKeepsIff(s: Ledger, ev: Event, number: Option<int>, f: Fields)
    requires Inv(s) && ev.Record? && Possible(s, ev)
    requires Asked(number) ==> Find(s.rows, ev.group, number.value).None?
    ensures Inv(Ledger(s.rows + [Imported(NewOrder(s, ev), number, f)], s.recorded + 1)) <==>
      && ev.creator != "" && ev.price >= 0.0
      && (f.status == Some(Taken) || f.status == Some(Completed) ==> f.player.Some? && f.player.value != "")
      && (f.status == None || f.status == Some(Untaken) ==> f.player == None || f.player == Some(""))
      && f.status != Some(Withdrawn)
  {
    FreeNumber(s.rows, ev.group);
    InsertKeepsIff(s, Imported(NewOrder(s, ev), number, f));
  }

  lemma ChangeKeeps(s: Ledger, ev: Event, i: nat)
    requires Inv(s) && Addressed(ev) && i < |s.rows| && Change(s.rows[i], ev).Some?
    ensures var o := Change(s.rows[i], ev).value;
      Inv(s.(rows := s.rows[i := o])) <==> !(ev.Take? && ev.user == "")
  {
    var o := Change(s.rows[i], ev).value;
    var s' := s.(rows := s.rows[i := o]);
    assert s'.rows[i] == o;
    forall a, b | 0 <= a < b < |s'.rows| ensures Apart(s'.rows[a], s'.rows[b]) {
      assert Apart(s.rows[a], s.rows[b]);
    }
  }

  lemma RemoveKeeps(s: Ledger, i: nat)
    requires Inv(s) && i < |s.rows|
    ensures Inv(s.(rows := s.rows[..i] + s.rows[i + 1..]))
  {
    var rows := s.rows[..i] + s.rows[i + 1..];
    forall a, b | 0 <= a < b < |rows| ensures Apart(rows[a], rows[b]) {
      assert Apart(s.rows[if a < i then a else a + 1], s.rows[if b < i then b else b + 1]);
    }
  }

  lemma RestoreKeeps(s: Ledger, group: string, now: int, days: int)
    requires Inv(s)
    ensures Inv(s.(rows := RestoreRows(s.rows, group, now, days)))
  {
    var rows := RestoreRows(s.rows, group, now, days);
    forall a, b | 0 <= a < b < |rows| ensures Apart(rows[a], rows[b]) {
      assert Apart(s.rows[a], s.rows[b]);
    }
  }

  lemma PurgeKeeps(s: Ledger, ids: set<nat>)
    requires Inv(s)
    ensures Inv(s.(rows := Without(s.rows, ids)))
  {
    WithoutRows(s.rows, ids);
    WithoutApart(s.rows, ids);
    assert forall i :: 0 <= i < |Without(s.rows, ids)| ==> Without(s.rows, ids)[i] in s.rows;
  }

  /** One step keeps the invariant exactly when it is refused or names its user. */
  lemma StepKeepsIff(s: Ledger, ev: Event)
    requires Inv(s) && Possible(s, ev)
    ensures Inv(Apply(s, ev)) <==> NamesUser(s, ev)
  {
    match ev
    case Record(_, _, _, _, _, _) =>
      if ev.group != "" && ev.price >= 0.0 { RecordKeeps(s, ev); }
    case Delete(group, number, _) =>
      var i := Find(s.rows, group, number);
      if i.Some? { RemoveKeeps(s, i.value); }
    case Purge(ids) => PurgeKeeps(s, ids);
    case RestoreOverdue(group, now, days) => RestoreKeeps(s, group, now, days);
    case _ =>
      var i := Find(s.rows, ev.group, ev.number);
      if ev.group != "" && i.Some? && Change(s.rows[i.value], ev).Some? {
        ChangeKeeps(s, ev, i.value);
      }
  }

  // ---------------------------------------------------------------- runs

  function Run(s: Ledger, evs: seq<Event>): Ledger
    decreases |evs|
  {
    if evs == [] then s else Run(Apply(s, evs[0]), evs[1..])
  }

  ghost predicate AllNamed(s: Ledger, evs: seq<Event>)
    decreases |evs|
  {
    evs == [] || (Possible(s, evs[0]) && NamesUser(s, evs[0]) && AllNamed(Apply(s, evs[0]), evs[1..]))
  }

  lemma {:induction false} RunKeeps(s: Ledger, evs: seq<Event>)
    requires Inv(s) && AllNamed(s, evs)
    ensures Inv(Run(s, evs))
    decreases |evs|
  {
    if evs != [] {
      StepKeepsIff(s, evs[0]);
      RunKeeps(Apply(s, evs[0]), evs[1..]);
    }
  }

  /** The life of an order: same identity and creator; only the price may change
      once it is completed; an untaken order is not completed in one step. */
  predicate LivesOn(o: Order, n: Order) {
    && n.id == o.id && n.born == o.born && n.group == o.group && n.number == o.number
    && n.creator == o.creator && n.creatorNick == o.creatorNick && n.created == o.created
    && (o.status == Completed ==> n == o.(price := n.price))
    && (o.status == Untaken ==> n.status != Completed)
    && (o.status == Taken && n.status != Untaken ==> n.player == o.player && n.playerNick == o.playerNick)
  }

  /** Every row after a step is new or continues the row with its history. */
  lemma StepLives(s: Ledger, ev: Event, n: Order)
    requires Inv(s) && n in Apply(s, ev).rows
    ensures n.born == s.recorded || exists o {:trigger LivesOn(o, n)} :: o in s.rows && LivesOn(o, n)
  {
    assert LivesOn(n, n);
    match ev
    case Record(_, _, _, _, _, _) =>
    case Delete(_, _, _) => assert n in s.rows;
    case Purge(ids) =>
      WithoutRows(s.rows, ids);
      assert n in s.rows;
    case RestoreOverdue(group, now, days) =>
      var k :| 0 <= k < |s.rows| && Apply(s, ev).rows[k] == n;
      assert LivesOn(s.rows[k], n);
    case _ => RowLives(s, ev, n);
  }

  lemma RowLives(s: Ledger, ev: Event, n: Order)
    requires Addressed(ev) && n in Apply(s, ev).rows
    ensures exists o {:trigger LivesOn(o, n)} :: o in s.rows && LivesOn(o, n)
  {
    var k :| 0 <= k < |Apply(s, ev).rows| && Apply(s, ev).rows[k] == n;
    if n != s.rows[k] { ChangeLives(s.rows[k], ev); }
    assert LivesOn(s.rows[k], n);
  }

  lemma ChangeLives(o: Order, ev: Event)
    requires Addressed(ev) && Change(o, ev).Some?
    ensures LivesOn(o, Change(o, ev).value)
  {
  }

  lemma SameBirthSameRow(s: Ledger, a: Order, b: Order)
    requires Inv(s) && a in s.rows && b in s.rows && a.born == b.born
    ensures a == b
  {
    var i :| 0 <= i < |s.rows| && s.rows[i] == a;
    var j :| 0 <= j < |s.rows| && s.rows[j] == b;
    assert i < j ==> Apart(s.rows[i], s.rows[j]);
    assert j < i ==> Apart(s.rows[j], s.rows[i]);
  }

  /** The order recorded as number `born` is in the table. */
  ghost predicate Lives(s: Ledger, born: nat) {
    exists o :: o in s.rows && o.born == born
  }

  /** An order that is gone does not come back, even when its row id does. */
  lemma {:induction false} GoneStaysGone(s: Ledger, evs: seq<Event>, born: nat)
    requires Inv(s) && AllNamed(s, evs) && born < s.recorded && !Lives(s, born)
    ensures !Lives(Run(s, evs), born)
    decreases |evs|
  {
    if evs != [] {
      var s1 := Apply(s, evs[0]);
      StepKeepsIff(s, evs[0]);
      if Lives(s1, born) {
        var n :| n in s1.rows && n.born == born;
        StepLives(s, evs[0], n);
      }
      GoneStaysGone(s1, evs[1..], born);
    }
  }

  /** A completed order stays completed, with the same row, parties and times, for
      as long as it exists; only its price can still be changed. */
  lemma {:induction false} CompletedForGood(s: Ledger, evs: seq<Event>, o: Order, n: Order)
    requires Inv(s) && AllNamed(s, evs)
    requires o in s.rows && o.status == Completed && n in Run(s, evs).rows && n.born == o.born
    ensures n == o.(price := n.price)
    decreases |evs|
  {
    if evs == [] {
      SameBirthSameRow(s, o, n);
    } else {
      var s1 := Apply(s, evs[0]);
      StepKeepsIff(s, evs[0]);
      if Lives(s1, o.born) {
        var m :| m in s1.rows && m.born == o.born;
        StepLives(s, evs[0], m);
        var p :| p in s.rows && LivesOn(p, m);
        SameBirthSameRow(s, o, p);
        CompletedForGood(s1, evs[1..], m, n);
      } else {
        GoneStaysGone(s1, evs[1..], o.born);
      }
    }
  }

  /** The id of a new row where the key does not increase for ever: one above the largest. */
  function NextRowId(rows: seq<Order>): nat {
    if rows == [] then 1
    else
      var rest := NextRowId(rows[1..]);
      if rows[0].id >= rest then rows[0].id + 1 else rest
  }

  lemma {:induction false} RowIdUnused(rows: seq<Order>)
    ensures forall i :: 0 <= i < |rows| ==> rows[i].id < NextRowId(rows)
    ensures UnusedId(rows, NextRowId(rows))
  {
    if rows != [] {
      RowIdUnused(rows[1..]);
    }
  }

  lemma {:induction false} RowIdIsNext(rows: seq<Order>)
    ensures rows == [] ==> NextRowId(rows) == 1
    ensures rows != [] ==> exists o :: o in rows && NextRowId(rows) == o.id + 1
  {
    if |rows| > 1 {
      RowIdIsNext(rows[1..]);
      var o :| o in rows[1..] && NextRowId(rows[1..]) == o.id + 1;
      assert o in rows && rows[0] in rows;
    } else if rows != [] {
      assert NextRowId(rows[1..]) == 1 && rows[0] in rows;
    }
  }

  /** A row id does not identify an order: the id of a deleted last row is given out again. */
  lemma RowIdReused(start: Ledger, a: Event, b: Event)
    requires a.Record? && a.group != "" && a.price >= 0.0 && a.id == NextRowId(start.rows)
    requires b.Record? && b.group != "" && b.price >= 0.0
    requires Inv(start)
    ensures var s := Apply(start, a);
      var o := s.rows[|start.rows|];
      var t := Apply(s, Delete(o.group, o.number, true));
      b.id == NextRowId(t.rows) ==>
        Apply(t, b).rows[|t.rows|].id == o.id && Apply(t, b).rows[|t.rows|].born != o.born
  {
    var s := Apply(start, a);
    var o := s.rows[|start.rows|];
    RowIdUnused(start.rows);
    FreshNumberIsLast(start, a);
    assert s.rows[..|start.rows|] + s.rows[|start.rows| + 1..] == start.rows;
  }

  lemma FreshNumberIsLast(s: Ledger, ev: Event)
    requires ev.Record? && ev.group != "" && ev.price >= 0.0
    ensures Find(Apply(s, ev).rows, ev.group, NextNumber(s.rows, ev.group)) == Some(|s.rows|)
  {
    var rows, n := Apply(s, ev).rows, NextNumber(s.rows, ev.group);
    assert rows[|s.rows|].group == ev.group && rows[|s.rows|].number == n;
    var i := Find(rows, ev.group, n);
    if i.Some? && i.value < |s.rows| {
      NextNumberIsFree(s.rows, ev.group, s.rows[i.value]);
    }
  }

  /** Without a user id the handlers would store an order that counts as taken by nobody. */
  lemma AnonymousTakeBreaks()
    ensures var s := Ledger([Order(0, 0, "g", 1, 5.0, "c", "c", "", "", Untaken, Some(0), None, None, "")], 1);
      Inv(s) && !Inv(Apply(s, Take("g", 1, "", "nobody", 10)))
  {
    var s := Ledger([Order(0, 0, "g", 1, 5.0, "c", "c", "", "", Untaken, Some(0), None, None, "")], 1);
    StepKeepsIff(s, Take("g", 1, "", "nobody", 10));
  }

  lemma {:induction false} MaxNumberIs(rows: seq<Order>, group: string)
    ensures MaxNumber(rows, group).None? <==> forall o :: o in rows ==> o.group != group
    ensures MaxNumber(rows, group).Some? ==>
      && (exists o :: o in rows && o.group == group && o.number == MaxNumber(rows, group).value)
      && (forall o :: o in rows && o.group == group ==> o.number <= MaxNumber(rows, group).value)
  {
    if rows != [] {
      MaxNumberIs(rows[1..], group);
      assert rows == [rows[0]] + rows[1..];
      assert rows[0] in rows;
    }
  }

  /** The largest number in the group of `o` but its own is `m`, or there is no other and `m` is 0. */
  ghost predicate LargestOther(rows: seq<Order>, o: Order, m: int) {
    if forall x :: x in rows && x.group == o.group ==> x == o then m == 0
    else
      && (exists x :: x in rows && x.group == o.group && x != o && x.number == m)
      && (forall x :: x in rows && x.group == o.group && x != o ==> x.number <= m)
  }

  lemma FindIsTheRow(s: Ledger, k: nat)
    requires Inv(s) && k < |s.rows|
    ensures Find(s.rows, s.rows[k].group, s.rows[k].number) == Some(k)
  {
    var i := Find(s.rows, s.rows[k].group, s.rows[k].number).value;
    assert i < k ==> Apart(s.rows[i], s.rows[k]);
    assert k < i ==> Apart(s.rows[k], s.rows[i]);
  }

  lemma RemoveAt(rows: seq<Order>, k: nat, x: Order)
    requires k < |rows| && forall i :: 0 <= i < |rows| && i != k ==> rows[i] != rows[k]
    ensures x in rows[..k] + rows[k + 1..] <==> x in rows && x != rows[k]
  {
    var rest := rows[..k] + rows[k + 1..];
    assert forall i :: 0 <= i < |rest| ==> rest[i] == rows[if i < k then i else i + 1];
    if x in rows && x != rows[k] {
      var i :| 0 <= i < |rows| && rows[i] == x;
      assert rest[if i < k then i else i - 1] == x;
    }
  }

  /** Deleting an order leaves all others. */
  lemma DeleteLeavesOthers(s: Ledger, o: Order, x: Order)
    requires Inv(s) && o in s.rows && o.group != ""
    ensures x in Apply(s, Delete(o.group, o.number, true)).rows <==> x in s.rows && x != o
  {
    var k :| 0 <= k < |s.rows| && s.rows[k] == o;
    FindIsTheRow(s, k);
    forall i | 0 <= i < |s.rows| && i != k ensures s.rows[i] != s.rows[k] {
      assert i < k ==> Apart(s.rows[i], s.rows[k]);
      assert k < i ==> Apart(s.rows[k], s.rows[i]);
    }
    RemoveAt(s.rows, k, x);
  }

  /** The number of a deleted order is the next one to be given out exactly when
      it was one above the largest of the others. */
  lemma NumberIsReusedIff(s: Ledger, o: Order)
    requires Inv(s) && o in s.rows && o.group != ""
    ensures NextNumber(Apply(s, Delete(o.group, o.number, true)).rows, o.group) == o.number
       <==> LargestOther(s.rows, o, o.number - 1)
  {
    var rest := Apply(s, Delete(o.group, o.number, true)).rows;
    forall x ensures x in rest <==> x in s.rows && x != o {
      DeleteLeavesOthers(s, o, x);
    }
    MaxNumberIs(rest, o.group);
    if MaxNumber(rest, o.group).Some? {
      var x :| x in rest && x.group == o.group && x.number == MaxNumber(rest, o.group).value;
      assert x in s.rows && x != o;
    }
  }

  /** Three orders, the second deleted, then the third: the next one gets number 2. */
  lemma NumberIsNotReused()
    ensures var r1, r2 := Record("g", 1.0, "c", "", 0, 1), Record("g", 1.0, "c", "", 0, 2);
      var r3 := Record("g", 1.0, "c", "", 0, 3);
      var three := Apply(Apply(Apply(Ledger([], 0), r1), r2), r3);
      var one := Apply(Apply(three, Delete("g", 2, true)), Delete("g", 3, true));
      |three.rows| == 3 && three.rows[2].number == 3 && NextNumber(one.rows, "g") == 2
  {
    var r1, r2 := Record("g", 1.0, "c", "", 0, 1), Record("g", 1.0, "c", "", 0, 2);
    var r3 := Record("g", 1.0, "c", "", 0, 3);
    var o1 := Order(1, 0, "g", 1, 1.0, "c", "", "", "", Untaken, Some(0), None, None, "");
    var o2, o3 := o1.(id := 2, born := 1, number := 2), o1.(id := 3, born := 2, number := 3);
    NextAfter([], o1);
    NextAfter([o1], o2);
    NextAfter([o1, o2], o3);
    assert [] + [o1] == [o1] && [o1] + [o2] == [o1, o2] && [o1, o2] + [o3] == [o1, o2, o3];
    assert Apply(Apply(Apply(Ledger([], 0), r1), r2), r3) == Ledger([o1, o2, o3], 3);
    var three := Ledger([o1, o2, o3], 3);
    assert [o1, o2, o3][1..] == [o2, o3];
    assert Find(three.rows, "g", 2) == Some(1);
    assert Apply(three, Delete("g", 2, true)).rows == [o1, o3];
    assert [o1, o3][1..] == [o3];
    assert Find([o1, o3], "g", 3) == Some(1);
    assert Apply(Ledger([o1, o3], 3), Delete("g", 3, true)).rows == [o1];
  }

  lemma NextAfter(rows: seq<Order>, o: Order)
    requires forall x :: x in rows ==> x.group == o.group && x.number < o.number
    requires rows != [] || o.number >= 1
    ensures NextNumber(rows + [o], o.group) == o.number + 1
  {
    MaxNumberIs(rows + [o], o.group);
    assert (rows + [o])[|rows|] == o;
  }

  // ---------------------------------------------------------------- what each event does

  /** What no handler writes. */
  predicate SameOrder(o: Order, n: Order) {
    && n.id == o.id && n.born == o.born && n.group == o.group && n.number == o.number
    && n.creator == o.creator && n.creatorNick == o.creatorNick && n.created == o.created
  }

  /** Row `k` is still the same order, and the other rows are as they were. */
  ghost predicate OnlyRow(s: Ledger, t: Ledger, k: nat)
    requires k < |s.rows|
  {
    && t.recorded == s.recorded && |t.rows| == |s.rows| && SameOrder(s.rows[k], t.rows[k])
    && forall i :: 0 <= i < |s.rows| && i != k ==> t.rows[i] == s.rows[i]
  }

  /** An order that does not exist is not found, and nothing changes. */
  lemma UnknownOrder(s: Ledger, ev: Event)
    requires Addressed(ev)
    requires ev.group == ""
      || forall k :: 0 <= k < |s.rows| ==> s.rows[k].group != ev.group || s.rows[k].number != ev.number
    ensures !Accepted(s, ev) && Apply(s, ev) == s
  {
  }

  /** Taking works exactly on an untaken order, and hands it to the user. */
  lemma TakeSays(s: Ledger, k: nat, user: string, nick: string, now: int)
    requires Inv(s) && k < |s.rows| && s.rows[k].group != ""
    ensures var o := s.rows[k];
      var ev := Take(o.group, o.number, user, nick, now);
      var t := Apply(s, ev);
      && OnlyRow(s, t, k) && (Accepted(s, ev) <==> o.status == Untaken)
      && (o.status != Untaken ==> t.rows[k] == o)
      && (o.status == Untaken ==>
            && t.rows[k].status == Taken && t.rows[k].player == user && t.rows[k].playerNick == nick
            && t.rows[k].taken == Some(now) && t.rows[k].price == o.price
            && t.rows[k].completed == o.completed && t.rows[k].confirmer == o.confirmer)
  {
    FindIsTheRow(s, k);
  }

  /** Completing works exactly on a taken order, for its creator, its player or an
      administrator, and stores the time and who confirmed. */
  lemma CompleteSays(s: Ledger, k: nat, user: string, admin: bool, now: int, plain: bool)
    requires Inv(s) && k < |s.rows| && s.rows[k].group != ""
    ensures var o := s.rows[k];
      var ev := if plain then PlainConfirm(o.group, o.number, user, admin, now)
                else Complete(o.group, o.number, user, admin, now);
      var t := Apply(s, ev);
      var may := o.status == Taken && (o.creator == user || o.player == user || admin) && (plain ==> user != "");
      && OnlyRow(s, t, k) && (Accepted(s, ev) <==> may)
      && (!may ==> t.rows[k] == o)
      && (may ==>
            && t.rows[k].status == Completed && t.rows[k].completed == Some(now) && t.rows[k].confirmer == user
            && t.rows[k].player == o.player && t.rows[k].playerNick == o.playerNick
            && t.rows[k].taken == o.taken && t.rows[k].price == o.price)
  {
    FindIsTheRow(s, k);
  }

  /** Giving an order back works exactly on a taken one, for its player or an
      administrator, and clears the player and the time. */
  lemma CancelTakeSays(s: Ledger, k: nat, user: string, admin: bool)
    requires Inv(s) && k < |s.rows| && s.rows[k].group != ""
    ensures var o := s.rows[k];
      var ev := CancelTake(o.group, o.number, user, admin);
      var t := Apply(s, ev);
      var may := o.status == Taken && (o.player == user || admin);
      && OnlyRow(s, t, k) && (Accepted(s, ev) <==> may)
      && (!may ==> t.rows[k] == o)
      && (may ==>
            && t.rows[k].status == Untaken && t.rows[k].player == "" && t.rows[k].playerNick == ""
            && t.rows[k].taken == None && t.rows[k].price == o.price
            && t.rows[k].completed == o.completed && t.rows[k].confirmer == o.confirmer)
  {
    FindIsTheRow(s, k);
  }

  /** Only the creator or an administrator sets a price, of at least 0, in any state
      of the order, and nothing else changes. */
  lemma RepriceSays(s: Ledger, k: nat, user: string, admin: bool, price: real)
    requires Inv(s) && k < |s.rows| && s.rows[k].group != ""
    ensures var o := s.rows[k];
      var ev := Reprice(o.group, o.number, user, admin, price);
      var t := Apply(s, ev);
      var may := price >= 0.0 && (o.creator == user || admin);
      && OnlyRow(s, t, k) && (Accepted(s, ev) <==> may)
      && (!may ==> t.rows[k] == o)
      && (may ==>
            && t.rows[k].price == price && t.rows[k].status == o.status
            && t.rows[k].player == o.player && t.rows[k].playerNick == o.playerNick && t.rows[k].taken == o.taken
            && t.rows[k].completed == o.completed && t.rows[k].confirmer == o.confirmer)
  {
    FindIsTheRow(s, k);
  }

  /** Recording appends one untaken order of the user with the next number, unless
      the group is missing or the price negative. */
  lemma RecordSays(s: Ledger, group: string, price: real, creator: string, nick: string, now: int, id: nat)
    ensures var t := Apply(s, Record(group, price, creator, nick, now, id));
      && (group == "" || price < 0.0 ==> t == s)
      && (group != "" && price >= 0.0 ==>
            && |t.rows| == |s.rows| + 1 && t.rows[..|s.rows|] == s.rows && t.recorded == s.recorded + 1
            && var n := t.rows[|s.rows|];
            && n.id == id && n.born == s.recorded && n.group == group && n.number == NextNumber(s.rows, group)
            && n.price == price && n.creator == creator && n.creatorNick == nick
            && n.player == "" && n.playerNick == "" && n.status == Untaken && n.created == Some(now)
            && n.taken == None && n.completed == None && n.confirmer == "")
  {
  }

  /** An untaken order is brought to mind once it was recorded so many hours ago. */
  lemma ForgottenSays(o: Order, now: int, hours: int)
    ensures Forgotten(o, now, hours) <==>
      o.status == Untaken && o.created.Some? && now >= o.created.value + hours * 3600
  {
  }

  /** What an import stores: the number that was asked for or else the next one, the
      fields it brings along, and for the others what a new order has. */
  lemma ImportSays(s: Ledger, group: string, price: real, creator: string, nick: string, now: int, id: nat,
                   number: Option<int>, f: Fields)
    ensures var n := Imported(NewOrder(s, Record(group, price, creator, nick, now, id)), number, f);
      && n.id == id && n.born == s.recorded && n.group == group && n.price == price
      && n.creator == creator && n.creatorNick == nick
      && (number.Some? && number.value != 0 ==> n.number == number.value)
      && (number.None? || number.value == 0 ==> n.number == NextNumber(s.rows, group))
      && n.created == (if f.created.Some? then f.created else Some(now))
      && n.status == (if f.status.Some? then f.status.value else Untaken)
      && n.taken == (if f.taken.Some? then f.taken.value else None)
      && n.completed == (if f.completed.Some? then f.completed.value else None)
      && n.player == (if f.player.Some? then f.player.value else "")
      && n.playerNick == (if f.playerNick.Some? then f.playerNick.value else "")
      && n.confirmer == (if f.confirmer.Some? then f.confirmer.value else "")
  {
  }

  /** The next number is one above the largest of the group, or 1. */
  lemma NextNumberSays(rows: seq<Order>, group: string)
    ensures (forall o :: o in rows ==> o.group != group) ==> NextNumber(rows, group) == 1
    ensures (exists o :: o in rows && o.group == group) ==>
      exists o :: o in rows && o.group == group && NextNumber(rows, group) == o.number + 1
  {
    MaxNumberIs(rows, group);
  }

  /** The overdue step gives back exactly the group's orders that were taken at least
      so many days ago; the time of the take stays. */
  lemma OverdueSays(s: Ledger, group: string, now: int, days: int, k: nat)
    requires k < |s.rows|
    ensures var t := Apply(s, RestoreOverdue(group, now, days));
      var o := s.rows[k];
      var due := o.group == group && o.status == Taken && o.taken.Some? && now - o.taken.value >= days * 86400;
      && t.recorded == s.recorded && |t.rows| == |s.rows| && SameOrder(o, t.rows[k])
      && (!due ==> t.rows[k] == o)
      && (due ==>
            && t.rows[k].status == Untaken && t.rows[k].player == "" && t.rows[k].playerNick == ""
            && t.rows[k].taken == o.taken && t.rows[k].price == o.price
            && t.rows[k].completed == o.completed && t.rows[k].confirmer == o.confirmer)
  {
  }

  /** Only an administrator deletes; purging leaves exactly the orders with other ids. */
  lemma RemovalSays(s: Ledger, group: string, number: int, ids: set<nat>, o: Order)
    ensures Apply(s, Delete(group, number, false)) == s && Apply(s, Delete("", number, true)) == s
    ensures (forall k :: 0 <= k < |s.rows| ==> s.rows[k].group != group || s.rows[k].number != number) ==>
      Apply(s, Delete(group, number, true)) == s
    ensures o in Apply(s, Purge(ids)).rows <==> o in s.rows && o.id !in ids
  {
    WithoutRows(s.rows, ids);
  }

  // ---------------------------------------------------------------- the store

  /** The rows of a group, by number, as the listing query returns them. */
  function Listing(rows: seq<Order>, group: string): seq<Order> {
    SortBy(OfGroup(rows, group), (o: Order) => o.number as real)
  }

  function OfGroup(rows: seq<Order>, group: string): seq<Order> {
    if rows == [] then []
    else (if rows[0].group == group then [rows[0]] else []) + OfGroup(rows[1..], group)
  }

  lemma {:induction false} GroupRows(rows: seq<Order>, group: string)
    ensures forall o :: o in OfGroup(rows, group) <==> o in rows && o.group == group
  {
    if rows != [] {
      GroupRows(rows[1..], group);
    }
  }

  lemma ListingRows(rows: seq<Order>, group: string)
    ensures forall o :: o in Listing(rows, group) <==> o in rows && o.group == group
    ensures NumbersRise(Listing(rows, group))
  {
    GroupRows(rows, group);
    SortSorts(OfGroup(rows, group), (o: Order) => o.number as real);
    forall o ensures o in Listing(rows, group) <==> o in OfGroup(rows, group) {
      assert o in Listing(rows, group) <==> o in multiset(Listing(rows, group));
    }
  }

  class OrderStore {
    var rows: seq<Order>
    var recorded: nat

    constructor ()
      ensures State() == Ledger([], 0)
    {
      rows, recorded := [], 0;
    }

    function State(): Ledger
      reads this
    {
      Ledger(rows, recorded)
    }

    /** Inserts a row unless its number is taken in the group, the table's only constraint. */
    method Commit(o: Order) returns (ok: bool)
      requires UnusedId(rows, o.id) && o.born == recorded
      modifies this
      ensures ok <==> Find(old(rows), o.group, o.number).None?
      ensures State() == if ok then Ledger(old(rows) + [o], old(recorded) + 1) else old(State())
    {
      ok := Find(rows, o.group, o.number).None?;
      if ok {
        rows, recorded := rows + [o], recorded + 1;
      }
    }

    /** Records an order under the given number, or under the next one; a taken
        number is an error when it was asked for, and is retried otherwise. */
    method CreateOrder(group: string, price: real, creator: string, nick: string, number: Option<int>,
                       preset: Fields, now: int)
        returns (order: Option<Order>)
      modifies this
      ensures order.Some? <==> !Asked(number) || Find(old(rows), group, number.value).None?
      ensures order.Some? ==> order.value == Imported(
        NewOrder(old(State()), Record(group, price, creator, nick, now, NextRowId(old(rows)))), number, preset)
      ensures State() == if order.Some? then Ledger(old(rows) + [order.value], old(recorded) + 1) else old(State())
    {
      var attempts := if Asked(number) then 1 else 5;
      for attempt := 0 to attempts
        invariant State() == old(State())
        invariant attempt > 0 ==> Asked(number) && Find(rows, group, number.value).Some?
      {
        var candidate := if Asked(number) then number.value else NextNumber(rows, group);
        RowIdUnused(rows);
        var o := Order(NextRowId(rows), recorded, group, candidate, price, creator, nick, "", "",
                       Untaken, Some(now), None, None, "");
        FreeNumber(rows, group);
        o := SetFields(o, preset);
        var ok := Commit(o);
        if ok {
          return Some(o);
        }
      }
      return None;
    }

    method RecordOrder(group: string, price: real, creator: string, nick: string, now: int) returns (ok: bool)
      modifies this
      ensures State() == Apply(old(State()), Record(group, price, creator, nick, now, NextRowId(old(rows))))
      ensures ok <==> group != "" && price >= 0.0
    {
      ok := group != "" && price >= 0.0;
      if ok {
        var o := CreateOrder(group, price, creator, nick, None, NOTHING, now);
      }
    }

    /** The handlers that look an order up and then write some of its fields. */
    method Handle(ev: Event) returns (ok: bool)
      requires Addressed(ev)
      modifies this
      ensures State() == Apply(old(State()), ev)
      ensures ok <==> Accepted(old(State()), ev)
    {
      ok := false;
      if ev.group != "" {
        var i := Find(rows, ev.group, ev.number);
        if i.Some? {
          var changed := Change(rows[i.value], ev);
          if changed.Some? {
            rows := rows[i.value := changed.value];
            ok := true;
          }
        }
      }
    }

    method DeleteOrder(group: string, number: int, admin: bool) returns (ok: bool)
      modifies this
      ensures State() == Apply(old(State()), Delete(group, number, admin))
      ensures ok <==> group != "" && admin && Find(old(rows), group, number).Some?
    {
      var i := Find(rows, group, number);
      ok := group != "" && admin && i.Some?;
      if ok {
        rows := rows[..i.value] + rows[i.value + 1..];
      }
    }

    /** Goes through the group's orders, gives overdue ones back and collects
        those that have waited too long for a player. */
    method CheckOverdue(group: string, now: int, days: int, hours: int) returns (remind: seq<Order>)
      requires Inv(State())
      modifies this
      ensures State() == Apply(old(State()), RestoreOverdue(group, now, days))
      ensures remind == ForgottenOf(Listing(old(rows), group), now, hours)
    {
      ghost var was := State();
      var orders := Listing(rows, group);
      ListingRows(rows, group);
      remind := VisitAll(orders, was, group, now, days, hours);
      AllVisited(was, rows, orders, group, now, days);
    }

    method VisitAll(orders: seq<Order>, ghost s: Ledger, group: string, now: int, days: int, hours: int)
        returns (remind: seq<Order>)
      requires Inv(s) && State() == s && forall o :: o in orders ==> o in s.rows && o.group == group
      modifies this`rows
      ensures Visited(s, rows, orders, group, now, days)
      ensures remind == ForgottenOf(orders, now, hours)
    {
      remind := [];
      for k := 0 to |orders|
        invariant Visited(s, rows, orders[..k], group, now, days)
        invariant remind == ForgottenOf(orders[..k], now, hours)
      {
        ghost var visited := orders[..k];
        assert orders[..k + 1] == visited + [orders[k]];
        ForgottenStep(visited, orders[k], now, hours);
        remind := Visit(remind, orders[k], s, visited, group, now, days, hours);
      }
      assert orders[..|orders|] == orders;
    }

    /** One order of the listing: an overdue one is given back, a forgotten one added to the reminders. */
    method Visit(remind: seq<Order>, order: Order, ghost s: Ledger, ghost visited: seq<Order>,
                 group: string, now: int, days: int, hours: int) returns (r: seq<Order>)
      requires Inv(s) && order in s.rows && order.group == group && |rows| == |s.rows|
      requires Visited(s, rows, visited, group, now, days)
      modifies this`rows
      ensures Visited(s, rows, visited + [order], group, now, days)
      ensures r == if Forgotten(order, now, hours) then remind + [order] else remind
    {
      ghost var before := rows;
      r := remind;
      match order.status {
        case Taken =>
          if order.taken.Some? && now - order.taken.value >= days * 86400 {
            VisitedKeys(s, rows, visited, order, group, now, days);
            GiveBack(order, s);
          }
        case Untaken =>
          if Forgotten(order, now, hours) {
            r := remind + [order];
          }
        case _ =>
      }
      VisitedOne(s, before, rows, visited, order, group, now, days);
    }

    method GiveBack(order: Order, ghost s: Ledger)
      requires Inv(s) && order in s.rows && |rows| == |s.rows|
      requires forall i :: 0 <= i < |rows| ==> rows[i].group == s.rows[i].group && rows[i].number == s.rows[i].number
      requires forall i :: 0 <= i < |rows| && s.rows[i] == order ==> rows[i] == order || rows[i] == Restored(order)
      modifies this`rows
      ensures |rows| == |old(rows)|
      ensures forall i :: 0 <= i < |rows| ==> rows[i] == if s.rows[i] == order then Restored(order) else old(rows)[i]
    {
      var i := Find(rows, order.group, order.number);
      ghost var k :| 0 <= k < |s.rows| && s.rows[k] == order;
      assert i.Some?;
      assert i.value < k ==> Apart(s.rows[i.value], s.rows[k]);
      assert k < i.value ==> Apart(s.rows[k], s.rows[i.value]);
      forall j | 0 <= j < |s.rows| && s.rows[j] == order ensures j == k {
        assert j < k ==> Apart(s.rows[j], s.rows[k]);
        assert k < j ==> Apart(s.rows[k], s.rows[j]);
      }
      rows := rows[i.value := Restored(rows[i.value])];
    }
  }

  predicate NumbersRise(orders: seq<Order>) {
    forall i, j :: 0 <= i < j < |orders| ==> orders[i].number <= orders[j].number
  }

  function ForgottenOf(orders: seq<Order>, now: int, hours: int): seq<Order> {
    if orders == [] then []
    else
      var init, o := orders[..|orders| - 1], orders[|orders| - 1];
      ForgottenOf(init, now, hours) + if Forgotten(o, now, hours) then [o] else []
  }

  lemma ForgottenStep(init: seq<Order>, o: Order, now: int, hours: int)
    ensures ForgottenOf(init + [o], now, hours) ==
      if Forgotten(o, now, hours) then ForgottenOf(init, now, hours) + [o] else ForgottenOf(init, now, hours)
  {
    assert (init + [o])[..|init|] == init;
    assert ForgottenOf(init, now, hours) + [] == ForgottenOf(init, now, hours);
  }

  lemma {:induction false} ForgottenOfRises(orders: seq<Order>, now: int, hours: int)
    ensures forall o :: o in ForgottenOf(orders, now, hours) <==> o in orders && Forgotten(o, now, hours)
    ensures NumbersRise(orders) ==> NumbersRise(ForgottenOf(orders, now, hours))
  {
    if orders != [] {
      var init, o := orders[..|orders| - 1], orders[|orders| - 1];
      ForgottenOfRises(init, now, hours);
      assert orders == init + [o];
      var chosen := ForgottenOf(init, now, hours);
      if NumbersRise(orders) {
        forall i | 0 <= i < |chosen| ensures chosen[i].number <= o.number {
          assert chosen[i] in init;
        }
      }
    }
  }

  /** The orders brought to mind are exactly the forgotten ones of the group, by number. */
  lemma RemindersSay(rows: seq<Order>, group: string, now: int, hours: int, o: Order)
    ensures var remind := ForgottenOf(Listing(rows, group), now, hours);
      && (o in remind <==> o in rows && o.group == group && Forgotten(o, now, hours)) && NumbersRise(remind)
  {
    ListingRows(rows, group);
    ForgottenOfRises(Listing(rows, group), now, hours);
  }

  predicate Forgotten(o: Order, now: int, hours: int) {
    o.status == Untaken && o.created.Some? && now - o.created.value >= hours * 3600
  }

  function AfterVisit(o: Order, visited: seq<Order>, group: string, now: int, days: int): Order {
    if o in visited && Overdue(o, group, now, days) then Restored(o) else o
  }

  ghost predicate Visited(s: Ledger, rows: seq<Order>, visited: seq<Order>, group: string, now: int, days: int) {
    && |rows| == |s.rows|
    && forall i {:trigger rows[i]} :: 0 <= i < |rows| ==> rows[i] == AfterVisit(s.rows[i], visited, group, now, days)
  }

  lemma VisitedKeys(s: Ledger, rows: seq<Order>, visited: seq<Order>, order: Order, group: string, now: int, days: int)
    requires Visited(s, rows, visited, group, now, days)
    ensures forall i :: 0 <= i < |rows| ==> rows[i].group == s.rows[i].group && rows[i].number == s.rows[i].number
    ensures forall i :: 0 <= i < |rows| && s.rows[i] == order ==> rows[i] == order || rows[i] == Restored(order)
  {
  }

  lemma VisitedOne(s: Ledger, before: seq<Order>, after: seq<Order>, visited: seq<Order>, order: Order,
                   group: string, now: int, days: int)
    requires |before| == |after| == |s.rows| && order.group == group
    requires Visited(s, before, visited, group, now, days)
    requires if Overdue(order, group, now, days)
      then forall i :: 0 <= i < |after| ==> after[i] == if s.rows[i] == order then Restored(order) else before[i]
      else after == before
    ensures Visited(s, after, visited + [order], group, now, days)
  {
    assert forall o :: o in visited + [order] <==> o in visited || o == order;
    forall i | 0 <= i < |after| ensures after[i] == AfterVisit(s.rows[i], visited + [order], group, now, days) {
      assert before[i] == AfterVisit(s.rows[i], visited, group, now, days);
    }
  }

  lemma AllVisited(s: Ledger, rows: seq<Order>, orders: seq<Order>, group: string, now: int, days: int)
    requires Visited(s, rows, orders, group, now, days)
    requires forall o :: o in orders <==> o in s.rows && o.group == group
    ensures rows == RestoreRows(s.rows, group, now, days)
  {
    forall i | 0 <= i < |rows| ensures rows[i] == RestoreRows(s.rows, group, now, days)[i] {
      assert s.rows[i] in s.rows;
    }
  }
}

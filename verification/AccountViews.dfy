/** Statistics, ranking and personal account, and how they agree with the
    commission summary of the same orders. */
module AccountViews {
  import opened OrderLedger
  import opened StableSort
  import opened Accounting
  import opened Options

  // ---------------------------------------------------------------- statistics

  datatype Stat = Stat(completed: nat, revenue: real, creators: Book, players: Book, of: real, emergency: real)

  function StatOf(completed: nat, revenue: real, creators: Book, players: Book, r: Ratio): Stat {
    Stat(completed, revenue, creators, players, revenue * r.of, revenue * r.emergency)
  }

  /** One pass over the completed orders, by the label of each party. */
  method BuildStats(orders: seq<Order>, r: Ratio) returns (stat: Stat)
    ensures stat == StatOf(|Done(orders)|, Revenue(Done(orders)),
                           Post(Postings(Done(orders), Stats(Creator), ExactFees(r))),
                           Post(Postings(Done(orders), Stats(Player), ExactFees(r))), r)
  {
    var completed := FilterDone(orders);
    var f := ExactFees(r);
    var revenue, creators, players := 0.0, [], [];
    for k := 0 to |completed|
      invariant revenue == Revenue(completed[..k])
      invariant creators == Post(Postings(completed[..k], Stats(Creator), f))
      invariant players == Post(Postings(completed[..k], Stats(Player), f))
    {
      NextOrder(completed, k, Income, f);
      revenue := revenue + completed[k].price;
      creators := CreditLabel(creators, completed, k, Creator, r);
      players := CreditLabel(players, completed, k, Player, r);
    }
    assert completed[..|completed|] == completed;
    stat := StatOf(|completed|, revenue, creators, players, r);
  }

  /** The two funds get their ratio of the revenue. */
  lemma StatSays(completed: nat, revenue: real, creators: Book, players: Book, r: Ratio)
    ensures var stat := StatOf(completed, revenue, creators, players, r);
      && stat.completed == completed && stat.revenue == revenue
      && stat.creators == creators && stat.players == players
      && stat.of == revenue * r.of && stat.emergency == revenue * r.emergency
  {
  }

  method FilterDone(orders: seq<Order>) returns (completed: seq<Order>)
    ensures completed == Done(orders)
  {
    completed := [];
    for k := 0 to |orders|
      invariant completed == Done(orders[..k])
    {
      assert orders[..k + 1][..k] == orders[..k];
      if orders[k].status == Completed {
        completed := completed + [orders[k]];
      }
    }
    assert orders[..|orders|] == orders;
  }

  method CreditLabel(book: Book, orders: seq<Order>, k: nat, role: Role, r: Ratio) returns (b: Book)
    requires k < |orders| && book == Post(Postings(orders[..k], Stats(role), ExactFees(r)))
    ensures b == Post(Postings(orders[..k + 1], Stats(role), ExactFees(r)))
  {
    var o, f := orders[k], ExactFees(r);
    NextOrder(orders, k, Stats(role), f);
    PostSnoc(Postings(orders[..k], Stats(role), f), PostingsOf(Stats(role), o, f));
    b := Credit(book, Label(Party(o, role), Nick(o, role)), "", f.For(role)(o.price));
  }

  // ---------------------------------------------------------------- ranking

  datatype Rank = Rank(take: Book, create: Book, income: Book)

  function ByCount(e: Entry): real {
    -(e.count as real)
  }

  function ByAmount(e: Entry): real {
    -e.amount
  }

  /** The first ten of a book in descending order. */
  function TopTen(book: Book, key: Entry -> real): Book {
    var sorted := SortBy(book, key);
    if |sorted| <= 10 then sorted else sorted[..10]
  }

  /** One pass over all orders; only completed ones earn. */
  method BuildRank(orders: seq<Order>, f: Fees) returns (rank: Rank)
    ensures rank.take == TopTen(Post(Postings(orders, Tally(Player), f)), ByCount)
    ensures rank.create == TopTen(Post(Postings(orders, Tally(Creator), f)), ByCount)
    ensures rank.income == TopTen(Post(Postings(orders, Income, f)), ByAmount)
  {
    var take, create, income: Book := [], [], [];
    for k := 0 to |orders|
      invariant take == Post(Postings(orders[..k], Tally(Player), f))
      invariant create == Post(Postings(orders[..k], Tally(Creator), f))
      invariant income == Post(Postings(orders[..k], Income, f))
    {
      take := CountParty(take, orders, k, Player, f);
      create := CountParty(create, orders, k, Creator, f);
      income := CreditIncome(income, orders, k, f);
    }
    assert orders[..|orders|] == orders;
    rank := Rank(TopTen(take, ByCount), TopTen(create, ByCount), TopTen(income, ByAmount));
  }

  method CountParty(book: Book, orders: seq<Order>, k: nat, role: Role, f: Fees) returns (b: Book)
    requires k < |orders| && book == Post(Postings(orders[..k], Tally(role), f))
    ensures b == Post(Postings(orders[..k + 1], Tally(role), f))
  {
    var o := orders[k];
    NextOrder(orders, k, Tally(role), f);
    PostSnoc(Postings(orders[..k], Tally(role), f), PostingsOf(Tally(role), o, f));
    var key := Party(o, role);
    b := if key == "" then book else Credit(book, key, Or(Nick(o, role), UNKNOWN), 1.0);
  }

  method CreditIncome(book: Book, orders: seq<Order>, k: nat, f: Fees) returns (b: Book)
    requires k < |orders| && book == Post(Postings(orders[..k], Income, f))
    ensures b == Post(Postings(orders[..k + 1], Income, f))
  {
    var o := orders[k];
    ghost var posted := Postings(orders[..k], Income, f);
    NextOrder(orders, k, Income, f);
    if o.status == Completed {
      b := CreditBoth(book, posted, o, f);
    } else {
      b := book;
      assert posted + [] == posted;
    }
  }

  method CreditBoth(book: Book, ghost posted: seq<Posting>, o: Order, f: Fees) returns (b: Book)
    requires book == Post(posted)
    ensures b == Post(posted + (Earning(o, Player, f) + Earning(o, Creator, f)))
  {
    b := CreditEarning(book, posted, o, Player, f);
    b := CreditEarning(b, posted + Earning(o, Player, f), o, Creator, f);
    var more := Earning(o, Player, f) + Earning(o, Creator, f);
    assert posted + Earning(o, Player, f) + Earning(o, Creator, f) == posted + more;
  }

  method CreditEarning(book: Book, ghost posted: seq<Posting>, o: Order, role: Role, f: Fees) returns (b: Book)
    requires book == Post(posted)
    ensures b == Post(posted + Earning(o, role, f))
  {
    PostSnoc(posted, Earning(o, role, f));
    var key := Party(o, role);
    b := if key == "" then book else Credit(book, key, Or(Nick(o, role), UNKNOWN), f.For(role)(o.price));
  }

  /** A top ten holds entries of the book, at most ten, best first; whoever is
      left out is no better than anyone on it, and only if it is full. */
  lemma TopTenIsTop(book: Book, key: Entry -> real, e: Entry, t: Entry)
    requires e in book && e !in TopTen(book, key) && t in TopTen(book, key)
    ensures t in book && key(t) <= key(e) && |TopTen(book, key)| == 10
  {
    var sorted := SortBy(book, key);
    SortSorts(book, key);
    assert e in multiset(book) && e in multiset(sorted) && t in multiset(sorted);
    var i :| 0 <= i < |sorted| && sorted[i] == e;
    var j :| 0 <= j < |TopTen(book, key)| && TopTen(book, key)[j] == t;
    var top := TopTen(book, key);
    assert forall k {:trigger sorted[k]} :: 0 <= k < |top| ==> sorted[k] == top[k] && sorted[k] in top;
  }

  lemma TopTenSorted(book: Book, key: Entry -> real)
    ensures Ascending(TopTen(book, key), key)
    ensures |TopTen(book, key)| == if |book| < 10 then |book| else 10
  {
    SortSorts(book, key);
  }

  /** The rankings by orders put whoever has more in front, and the one by income
      whoever earned more; nobody left out has more than anyone listed. */
  lemma RankSays(book: Book, i: nat, j: nat, e: Entry)
    ensures var top := TopTen(book, ByCount);
      && (i < j < |top| ==> top[i].count >= top[j].count)
      && (e in book && e !in top && i < |top| ==> top[i].count >= e.count)
    ensures var top := TopTen(book, ByAmount);
      && (i < j < |top| ==> top[i].amount >= top[j].amount)
      && (e in book && e !in top && i < |top| ==> top[i].amount >= e.amount)
  {
    TopTenSorted(book, ByCount);
    TopTenSorted(book, ByAmount);
    var byCount, byAmount := TopTen(book, ByCount), TopTen(book, ByAmount);
    if e in book && e !in byCount && i < |byCount| {
      TopTenIsTop(book, ByCount, e, byCount[i]);
    }
    if e in book && e !in byAmount && i < |byAmount| {
      TopTenIsTop(book, ByAmount, e, byAmount[i]);
    }
  }

  // ---------------------------------------------------------------- personal account

  /** One receipt of a person: the order's number, its price, the role and the fee. */
  datatype Receipt = Receipt(group: string, number: int, price: real, role: Role, fee: real, completed: Option<int>)

  datatype Account = Account(creator: real, player: real, records: seq<Receipt>) {
    function Total(): real {
      creator + player
    }
  }

  function ReceiptOf(o: Order, role: Role, f: Fees): Receipt {
    Receipt(o.group, o.number, o.price, role, FeeOf(o, role, f), o.completed)
  }

  function ReceiptIn(o: Order, role: Role, user: string, f: Fees): seq<Receipt> {
    if Party(o, role) == user then [ReceiptOf(o, role, f)] else []
  }

  /** The receipts of a person in the order of the orders. */
  function Receipts(orders: seq<Order>, user: string, f: Fees): seq<Receipt> {
    if orders == [] then []
    else
      var o := orders[|orders| - 1];
      Receipts(orders[..|orders| - 1], user, f) + ReceiptIn(o, Creator, user, f) + ReceiptIn(o, Player, user, f)
  }

  /** An order adds a receipt with its fee for each role the person has in it. */
  lemma OneReceiptMore(orders: seq<Order>, o: Order, user: string, f: Fees)
    ensures Receipts([], user, f) == []
    ensures var created := Receipt(o.group, o.number, o.price, Creator, f.creator(o.price), o.completed);
      var played := Receipt(o.group, o.number, o.price, Player, f.player(o.price), o.completed);
      Receipts(orders + [o], user, f) == Receipts(orders, user, f)
        + (if o.creator == user then [created] else []) + (if o.player == user then [played] else [])
  {
    assert (orders + [o])[..|orders|] == orders;
  }

  function ByTime(e: Receipt): real {
    if e.completed.Some? then -(e.completed.value as real) else 0.0
  }

  function Timed(es: seq<Receipt>, timed: bool): seq<Receipt> {
    if es == [] then []
    else (if es[0].completed.Some? == timed then [es[0]] else []) + Timed(es[1..], timed)
  }

  /** Latest completion first, without a time last, otherwise in the given order. */
  function LatestFirst(es: seq<Receipt>): seq<Receipt> {
    SortBy(Timed(es, true), ByTime) + Timed(es, false)
  }

  /** One pass over the completed orders for one person. */
  method BuildAccount(user: string, orders: seq<Order>, f: Fees) returns (a: Account)
    ensures a.creator == Earned(Done(orders), Creator, user, f)
    ensures a.player == Earned(Done(orders), Player, user, f)
    ensures a.records == LatestFirst(Receipts(Done(orders), user, f))
    ensures a.Total() == a.creator + a.player
  {
    var completed := FilterDone(orders);
    var creator, player, records := 0.0, 0.0, [];
    for k := 0 to |completed|
      invariant creator == Earned(completed[..k], Creator, user, f)
      invariant player == Earned(completed[..k], Player, user, f)
      invariant records == Receipts(completed[..k], user, f)
    {
      var o := completed[k];
      EarnedNext(completed, k, user, f);
      creator, records := AddReceipt(creator, records, o, Creator, user, f);
      player, records := AddReceipt(player, records, o, Player, user, f);
    }
    assert completed[..|completed|] == completed;
    a := Account(creator, player, LatestFirst(records));
  }

  method AddReceipt(total: real, records: seq<Receipt>, o: Order, role: Role, user: string, f: Fees)
      returns (t: real, rs: seq<Receipt>)
    ensures t == total + if Party(o, role) == user then FeeOf(o, role, f) else 0.0
    ensures rs == records + ReceiptIn(o, role, user, f)
  {
    t, rs := total, records;
    if Party(o, role) == user {
      t := total + f.For(role)(o.price);
      rs := records + [ReceiptOf(o, role, f)];
    }
  }

  lemma EarnedNext(orders: seq<Order>, k: nat, user: string, f: Fees)
    requires k < |orders|
    ensures Earned(orders[..k + 1], Creator, user, f)
      == Earned(orders[..k], Creator, user, f) + (if orders[k].creator == user then f.creator(orders[k].price) else 0.0)
    ensures Earned(orders[..k + 1], Player, user, f)
      == Earned(orders[..k], Player, user, f) + (if orders[k].player == user then f.player(orders[k].price) else 0.0)
    ensures Receipts(orders[..k + 1], user, f)
      == Receipts(orders[..k], user, f) + ReceiptIn(orders[k], Creator, user, f) + ReceiptIn(orders[k], Player, user, f)
  {
    assert orders[..k + 1][..k] == orders[..k];
    EarnedStep(orders[..k + 1], Creator, user, f);
    EarnedStep(orders[..k + 1], Player, user, f);
  }

  /** The listing is ordered and keeps every receipt, once. */
  lemma RecordsSorted(es: seq<Receipt>, i: nat, j: nat)
    requires i < j < |LatestFirst(es)|
    ensures var a, b := LatestFirst(es)[i].completed, LatestFirst(es)[j].completed;
      b.Some? ==> a.Some? && a.value >= b.value
  {
    var timed := Timed(es, true);
    SortSorts(timed, ByTime);
    TimedAll(es, true);
    TimedAll(es, false);
    var sorted := SortBy(timed, ByTime);
    assert forall k :: 0 <= k < |sorted| ==> sorted[k] in multiset(sorted);
    assert forall e :: e in multiset(timed) ==> e in timed;
    if i < |sorted| && j < |sorted| {
      assert sorted[i] in timed && sorted[j] in timed;
    }
  }

  lemma {:induction false} TimedAll(es: seq<Receipt>, timed: bool)
    ensures forall e :: e in Timed(es, timed) ==> e.completed.Some? == timed
  {
    if es != [] {
      TimedAll(es[1..], timed);
    }
  }

  lemma {:induction false} TimedParts(es: seq<Receipt>)
    ensures multiset(Timed(es, true)) + multiset(Timed(es, false)) == multiset(es)
  {
    if es != [] {
      TimedParts(es[1..]);
      assert es == [es[0]] + es[1..];
    }
  }

  lemma RecordsKept(es: seq<Receipt>)
    ensures multiset(LatestFirst(es)) == multiset(es)
  {
    TimedParts(es);
    SortSorts(Timed(es, true), ByTime);
  }

  /** What the receipts of a role add up to. */
  function ReceiptSum(es: seq<Receipt>, role: Role): real {
    if es == [] then 0.0 else (if es[0].role == role then es[0].fee else 0.0) + ReceiptSum(es[1..], role)
  }

  lemma {:induction false} ReceiptSumConcat(a: seq<Receipt>, b: seq<Receipt>, role: Role)
    ensures ReceiptSum(a + b, role) == ReceiptSum(a, role) + ReceiptSum(b, role)
  {
    if a == [] {
      assert a + b == b;
    } else {
      assert (a + b)[1..] == a[1..] + b;
      ReceiptSumConcat(a[1..], b, role);
    }
  }

  lemma {:induction false} InsertSum(x: Receipt, es: seq<Receipt>, role: Role)
    ensures ReceiptSum(Insert(x, es, ByTime), role) == (if x.role == role then x.fee else 0.0) + ReceiptSum(es, role)
  {
    if es == [] || ByTime(x) <= ByTime(es[0]) {
      assert ([x] + es)[1..] == es;
    } else {
      InsertSum(x, es[1..], role);
      assert Insert(x, es, ByTime)[1..] == Insert(x, es[1..], ByTime);
    }
  }

  lemma {:induction false} SortSum(es: seq<Receipt>, role: Role)
    ensures ReceiptSum(SortBy(es, ByTime), role) == ReceiptSum(es, role)
  {
    if es != [] {
      SortSum(es[1..], role);
      InsertSum(es[0], SortBy(es[1..], ByTime), role);
    }
  }

  lemma {:induction false} TimedSum(es: seq<Receipt>, role: Role)
    ensures ReceiptSum(Timed(es, true), role) + ReceiptSum(Timed(es, false), role) == ReceiptSum(es, role)
  {
    if es != [] {
      TimedSum(es[1..], role);
      TimedStep(es, true, role);
      TimedStep(es, false, role);
    }
  }

  lemma TimedStep(es: seq<Receipt>, timed: bool, role: Role)
    requires es != []
    ensures ReceiptSum(Timed(es, timed), role) == ReceiptSum(Timed(es[1..], timed), role)
      + if es[0].completed.Some? == timed && es[0].role == role then es[0].fee else 0.0
  {
    var rest := Timed(es[1..], timed);
    if es[0].completed.Some? == timed {
      assert Timed(es, timed) == [es[0]] + rest;
      assert ([es[0]] + rest)[1..] == rest;
    } else {
      assert Timed(es, timed) == [] + rest;
      assert [] + rest == rest;
    }
  }

  lemma {:induction false} ReceiptsEarned(orders: seq<Order>, user: string, f: Fees, role: Role)
    ensures ReceiptSum(Receipts(orders, user, f), role) == Earned(orders, role, user, f)
  {
    if orders != [] {
      var init, o := orders[..|orders| - 1], orders[|orders| - 1];
      ReceiptsEarned(init, user, f, role);
      var rs, c, p := Receipts(init, user, f), ReceiptIn(o, Creator, user, f), ReceiptIn(o, Player, user, f);
      ReceiptSumConcat(rs + c, p, role);
      ReceiptSumConcat(rs, c, role);
      OneReceipt(o, Creator, user, f, role);
      OneReceipt(o, Player, user, f, role);
      EarnedStep(orders, role, user, f);
    }
  }

  lemma OneReceipt(o: Order, own: Role, user: string, f: Fees, role: Role)
    ensures ReceiptSum(ReceiptIn(o, own, user, f), role)
         == if Party(o, own) == user && own == role then FeeOf(o, own, f) else 0.0
  {
    var es := ReceiptIn(o, own, user, f);
    if Party(o, own) == user {
      assert es == [ReceiptOf(o, own, f)];
      assert es[1..] == [];
      assert ReceiptSum(es, role) == if own == role then FeeOf(o, own, f) else 0.0;
    } else {
      assert es == [];
    }
  }

  /** The receipts of each role add up to the earnings in it. */
  lemma RecordsAddUp(orders: seq<Order>, user: string, f: Fees, role: Role)
    ensures ReceiptSum(LatestFirst(Receipts(orders, user, f)), role) == Earned(orders, role, user, f)
  {
    var es := Receipts(orders, user, f);
    ReceiptSumConcat(SortBy(Timed(es, true), ByTime), Timed(es, false), role);
    SortSum(Timed(es, true), role);
    TimedSum(es, role);
    ReceiptsEarned(orders, user, f, role);
  }

  // ---------------------------------------------------------------- agreement

  /** Whatever the fee function, for each id the personal account, the
      commission summary of the completed orders and the income before the cut
      to ten say the same. */
  lemma ViewsAgree(orders: seq<Order>, f: Fees, q: string, role: Role)
    requires q != ""
    ensures AmountAt(Post(Postings(Done(orders), Summary(role), f)), q) == Earned(Done(orders), role, q, f)
    ensures AmountAt(Post(Postings(orders, Income, f)), q)
         == Earned(Done(orders), Creator, q, f) + Earned(Done(orders), Player, q, f)
  {
    PostHolds(Postings(Done(orders), Summary(role), f), q);
    SummaryShares(Done(orders), role, f, q);
    PostHolds(Postings(orders, Income, f), q);
    IncomeShares(orders, f, q);
  }

  /** The statistics, summed over the nicknames an id appears under, say the same
      but for strays: orders of others whose label starts with the id and a bracket. */
  lemma StatsAgree(orders: seq<Order>, f: Fees, q: string, role: Role)
    requires q != ""
    ensures AmountOfId(Post(Postings(Done(orders), Stats(role), f)), q)
         == Earned(Done(orders), role, q, f) + FeeSum(StrayPrices(Done(orders), role, q), f.For(role))
  {
    StatsHold(Postings(Done(orders), Stats(role), f), q);
    StatsShares(Done(orders), role, f, q);
  }

  /** An id without a bracket that is not the stand-in has no strays as long as no
      other id starts with it and a bracket. */
  lemma {:induction false} NoStrays(orders: seq<Order>, role: Role, q: string)
    requires OPEN !in q && q != UNKNOWN
    requires forall o :: o in orders && o.status == Completed ==> !LabelOf(Party(o, role), q)
    ensures StrayPrices(Done(orders), role, q) == []
  {
    if orders != [] {
      var init, o := orders[..|orders| - 1], orders[|orders| - 1];
      NoStrays(init, role, q);
      if o.status == Completed {
        StrayIff(o, role, q);
        assert Done(orders)[..|Done(init)|] == Done(init);
      } else {
        assert Done(orders) == Done(init);
      }
    }
  }

  /** An account lists one record for each order the summaries count for the id. */
  lemma {:induction false} CountsAgree(orders: seq<Order>, f: Fees, q: string, role: Role)
    requires q != ""
    ensures CountAt(Post(Postings(orders, Summary(role), f)), q) == |Prices(orders, role, q)|
    ensures CountAt(Post(Postings(orders, Tally(role), f)), q) == |Prices(orders, role, q)|
  {
    CountsPosted(orders, f, q, role, Summary(role));
    CountsPosted(orders, f, q, role, Tally(role));
    PostHolds(Postings(orders, Summary(role), f), q);
    PostHolds(Postings(orders, Tally(role), f), q);
  }

  lemma {:induction false} CountsPosted(orders: seq<Order>, f: Fees, q: string, role: Role, view: View)
    requires q != "" && (view == Summary(role) || view == Tally(role))
    ensures PostingsTo(Postings(orders, view, f), q) == |Prices(orders, role, q)|
  {
    if orders != [] {
      var init, o := orders[..|orders| - 1], orders[|orders| - 1];
      CountsPosted(init, f, q, role, view);
      PostedConcat(Postings(init, view, f), PostingsOf(view, o, f), q);
      if Party(o, role) != "" {
        PostedOne(PostingsOf(view, o, f)[0], q);
      }
    }
  }
}

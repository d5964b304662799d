/** The four accounting views of the ledger, each written as its own fold in the
    plugin: commission summary, statistics, ranking and personal account. Money
    is exact (`real`). */
module Accounting {
  import opened OrderLedger
  import opened Options

  datatype Ratio = Ratio(player: real, creator: real, of: real, emergency: real) {
    function Sum(): real {
      player + creator + of + emergency
    }
  }

  datatype Role = Creator | Player

  /** The four shares as functions of the price. */
  datatype Fees = Fees(player: real -> real, creator: real -> real, of: real -> real, emergency: real -> real) {
    function For(role: Role): real -> real {
      if role == Creator then creator else player
    }
  }

  function Times(rate: real): real -> real {
    (price: real) => price * rate
  }

  /** The fees the plugin computes, in exact arithmetic. */
  function ExactFees(r: Ratio): Fees {
    Fees(Times(r.player), Times(r.creator), Times(r.of), Times(r.emergency))
  }

  /** One entry of a summary; a summary keeps its entries in order of first mention. */
  datatype Entry = Entry(key: string, name: string, amount: real, count: nat)

  type Book = seq<Entry>

  function Locate(book: Book, key: string): (i: Option<nat>)
    ensures i.Some? ==> i.value < |book| && book[i.value].key == key
    ensures i.None? ==> forall e :: e in book ==> e.key != key
  {
    if book == [] then None
    else if book[0].key == key then Some(0)
    else
      var r := Locate(book[1..], key);
      if r.Some? then Some(r.value + 1) else None
  }

  /** Adds to the entry of `key`, which is created under `name` if it is missing. */
  function Credit(book: Book, key: string, name: string, amount: real): Book {
    var i := Locate(book, key);
    if i.None? then book + [Entry(key, name, amount, 1)]
    else
      var e := book[i.value];
      book[i.value := e.(amount := e.amount + amount, count := e.count + 1)]
  }

  datatype Posting = Posting(key: string, name: string, amount: real)

  function Post(postings: seq<Posting>): Book {
    if postings == [] then []
    else
      var p := postings[|postings| - 1];
      Credit(Post(postings[..|postings| - 1]), p.key, p.name, p.amount)
  }

  ghost predicate OneEntryEach(book: Book) {
    forall i, j :: 0 <= i < j < |book| ==> book[i].key != book[j].key
  }

  function AmountAt(book: Book, key: string): real {
    var i := Locate(book, key);
    if i.Some? then book[i.value].amount else 0.0
  }

  function CountAt(book: Book, key: string): nat {
    var i := Locate(book, key);
    if i.Some? then book[i.value].count else 0
  }

  function Total(book: Book): real {
    if book == [] then 0.0 else book[0].amount + Total(book[1..])
  }

  function PostedTo(postings: seq<Posting>, key: string): real {
    if postings == [] then 0.0
    else
      PostedTo(postings[..|postings| - 1], key)
      + if postings[|postings| - 1].key == key then postings[|postings| - 1].amount else 0.0
  }

  function PostingsTo(postings: seq<Posting>, key: string): nat {
    if postings == [] then 0
    else PostingsTo(postings[..|postings| - 1], key) + if postings[|postings| - 1].key == key then 1 else 0
  }

  function PostedAll(postings: seq<Posting>): real {
    if postings == [] then 0.0
    else PostedAll(postings[..|postings| - 1]) + postings[|postings| - 1].amount
  }

  lemma {:induction false} LocateUnique(book: Book, i: nat)
    requires OneEntryEach(book) && i < |book|
    ensures Locate(book, book[i].key) == Some(i)
  {
    if i > 0 {
      LocateUnique(book[1..], i - 1);
    }
  }

  lemma {:induction false} TotalAppend(book: Book, e: Entry)
    ensures Total(book + [e]) == Total(book) + e.amount
  {
    if book == [] {
      assert book + [e] == [e];
    } else {
      assert (book + [e])[1..] == book[1..] + [e];
      TotalAppend(book[1..], e);
    }
  }

  lemma {:induction false} TotalUpdate(book: Book, i: nat, e: Entry)
    requires i < |book|
    ensures Total(book[i := e]) == Total(book) - book[i].amount + e.amount
  {
    if i > 0 {
      assert book[i := e][1..] == book[1..][i - 1 := e];
      TotalUpdate(book[1..], i - 1, e);
    }
  }

  lemma CreditKeeps(book: Book, key: string, name: string, amount: real, q: string)
    requires OneEntryEach(book)
    ensures var b := Credit(book, key, name, amount);
      && OneEntryEach(b)
      && AmountAt(b, q) == AmountAt(book, q) + (if q == key then amount else 0.0)
      && CountAt(b, q) == CountAt(book, q) + (if q == key then 1 else 0)
      && Total(b) == Total(book) + amount
      && (Locate(b, q).Some? <==> Locate(book, q).Some? || q == key)
  {
    var b := Credit(book, key, name, amount);
    var i := Locate(book, key);
    if i.None? {
      TotalAppend(book, b[|book|]);
    } else {
      TotalUpdate(book, i.value, b[i.value]);
    }
    var j := Locate(book, q);
    if j.Some? {
      assert b[j.value].key == q;
      LocateUnique(b, j.value);
    } else if q == key {
      LocateUnique(b, |book|);
    }
  }

  /** A summary holds for each key exactly what was posted to it, and in total
      exactly what was posted. */
  lemma {:induction false} PostHolds(postings: seq<Posting>, q: string)
    ensures var b := Post(postings);
      && OneEntryEach(b)
      && AmountAt(b, q) == PostedTo(postings, q)
      && CountAt(b, q) == PostingsTo(postings, q)
      && Total(b) == PostedAll(postings)
  {
    if postings != [] {
      var init, p := postings[..|postings| - 1], postings[|postings| - 1];
      PostHolds(init, q);
      CreditKeeps(Post(init), p.key, p.name, p.amount, q);
    }
  }

  /** The first posting under a key, or the number of postings. */
  function FirstPosting(postings: seq<Posting>, key: string): (j: nat)
    ensures j <= |postings|
  {
    if postings == [] then 0
    else
      var init := postings[..|postings| - 1];
      var j := FirstPosting(init, key);
      if j < |init| || postings[|init|].key == key then j else |postings|
  }

  lemma {:induction false} FirstPostingSays(postings: seq<Posting>, key: string)
    ensures var j := FirstPosting(postings, key);
      && (j < |postings| ==> postings[j].key == key) && forall m :: 0 <= m < j ==> postings[m].key != key
  {
    if postings != [] {
      FirstPostingSays(postings[..|postings| - 1], key);
    }
  }

  ghost predicate InOrder(postings: seq<Posting>, book: Book) {
    && (forall i {:trigger book[i]} :: 0 <= i < |book| ==>
          var j := FirstPosting(postings, book[i].key); j < |postings| && book[i].name == postings[j].name)
    && (forall i, k {:trigger book[i], book[k]} :: 0 <= i < k < |book| ==>
          FirstPosting(postings, book[i].key) < FirstPosting(postings, book[k].key))
  }

  /** Entries are in the order of the first posting under their key, whose name they keep. */
  lemma {:induction false} PostNames(postings: seq<Posting>)
    ensures InOrder(postings, Post(postings))
  {
    if postings != [] {
      var init, p := postings[..|postings| - 1], postings[|postings| - 1];
      PostNames(init);
      NextName(init, Post(init), p);
      assert postings == init + [p];
    }
  }

  lemma NextName(init: seq<Posting>, book: Book, p: Posting)
    requires InOrder(init, book) && book == Post(init)
    ensures InOrder(init + [p], Credit(book, p.key, p.name, p.amount))
  {
    var all, next := init + [p], Credit(book, p.key, p.name, p.amount);
    assert all[..|init|] == init;
    if Locate(book, p.key).None? {
      NothingPosted(init, p.key);
    }
    forall i {:trigger next[i]} | 0 <= i < |next|
      ensures var j := FirstPosting(all, next[i].key); j < |all| && next[i].name == all[j].name
      ensures i < |book| ==> FirstPosting(all, next[i].key) == FirstPosting(init, book[i].key) < |init|
      ensures i == |book| ==> FirstPosting(all, next[i].key) == |init|
    {
      if i < |book| {
        assert next[i].key == book[i].key && next[i].name == book[i].name;
      }
    }
  }

  /** A key without an entry was never posted to. */
  lemma {:induction false} NothingPosted(postings: seq<Posting>, key: string)
    requires Locate(Post(postings), key).None?
    ensures FirstPosting(postings, key) == |postings|
  {
    if postings != [] {
      var init, p := postings[..|postings| - 1], postings[|postings| - 1];
      PostHolds(init, key);
      CreditKeeps(Post(init), p.key, p.name, p.amount, key);
      NothingPosted(init, key);
    }
  }

  // ---------------------------------------------------------------- what the folds post

  function Or(a: string, b: string): string {
    if a != "" then a else b
  }

  function Party(o: Order, role: Role): string {
    if role == Creator then o.creator else o.player
  }

  function Nick(o: Order, role: Role): string {
    if role == Creator then o.creatorNick else o.playerNick
  }

  /** The full-width brackets of a label, and the stand-in for a missing id or nickname (未知). */
  const OPEN := '\U{FF08}'
  const CLOSE := '\U{FF09}'
  const UNKNOWN := "\U{672A}\U{77E5}"

  /** The label of the statistics view: id and nickname in full-width brackets. */
  function Label(qq: string, nick: string): string {
    Or(qq, UNKNOWN) + [OPEN] + Or(nick, UNKNOWN) + [CLOSE]
  }

  /** The summaries the folds build: per party for the commission and the
      statistics, earnings of both roles and order counts for the ranking. */
  datatype View = Summary(role: Role) | Stats(role: Role) | Income | Tally(role: Role)

  function FeeOf(o: Order, role: Role, f: Fees): real {
    f.For(role)(o.price)
  }

  /** What one order adds to a summary. */
  function PostingsOf(view: View, o: Order, f: Fees): seq<Posting> {
    match view
    case Summary(role) =>
      if Party(o, role) == "" then []
      else [Posting(Party(o, role), Or(Nick(o, role), Party(o, role)), FeeOf(o, role, f))]
    case Stats(role) => [Posting(Label(Party(o, role), Nick(o, role)), "", FeeOf(o, role, f))]
    case Income => if o.status != Completed then [] else Earning(o, Player, f) + Earning(o, Creator, f)
    case Tally(role) =>
      if Party(o, role) == "" then [] else [Posting(Party(o, role), Or(Nick(o, role), UNKNOWN), 1.0)]
  }

  function Earning(o: Order, role: Role, f: Fees): seq<Posting> {
    if Party(o, role) == "" then [] else [Posting(Party(o, role), Or(Nick(o, role), UNKNOWN), FeeOf(o, role, f))]
  }

  /** What an order posts, by its own fields: to the commission summary under the id,
      named by the nickname or else the id, the fee of the role; to the statistics under
      id and nickname in brackets; to the ranking, named by the nickname or else the
      stand-in, the fees of both roles if it is completed, and a count of one. A party
      without an id gets nothing, except in the statistics. */
  lemma OrderPosts(o: Order, f: Fees)
    ensures PostingsOf(Summary(Creator), o, f) == (if o.creator == "" then [] else
      [Posting(o.creator, if o.creatorNick != "" then o.creatorNick else o.creator, f.creator(o.price))])
    ensures PostingsOf(Summary(Player), o, f) == (if o.player == "" then [] else
      [Posting(o.player, if o.playerNick != "" then o.playerNick else o.player, f.player(o.price))])
    ensures PostingsOf(Stats(Creator), o, f) == [Posting(Bracketed(o.creator, o.creatorNick), "", f.creator(o.price))]
    ensures PostingsOf(Stats(Player), o, f) == [Posting(Bracketed(o.player, o.playerNick), "", f.player(o.price))]
    ensures PostingsOf(Tally(Creator), o, f) == (if o.creator == "" then [] else
      [Posting(o.creator, if o.creatorNick != "" then o.creatorNick else UNKNOWN, 1.0)])
    ensures PostingsOf(Tally(Player), o, f) == (if o.player == "" then [] else
      [Posting(o.player, if o.playerNick != "" then o.playerNick else UNKNOWN, 1.0)])
    ensures o.status != Completed ==> PostingsOf(Income, o, f) == []
    ensures o.status == Completed ==>
      var byPlayer := if o.player == "" then [] else
        [Posting(o.player, if o.playerNick != "" then o.playerNick else UNKNOWN, f.player(o.price))];
      var byCreator := if o.creator == "" then [] else
        [Posting(o.creator, if o.creatorNick != "" then o.creatorNick else UNKNOWN, f.creator(o.price))];
      PostingsOf(Income, o, f) == byPlayer + byCreator
  {
  }

  function Bracketed(id: string, nick: string): string {
    (if id != "" then id else UNKNOWN) + ['\U{FF08}'] + (if nick != "" then nick else UNKNOWN) + ['\U{FF09}']
  }

  function Postings(orders: seq<Order>, view: View, f: Fees): seq<Posting> {
    if orders == [] then []
    else Postings(orders[..|orders| - 1], view, f) + PostingsOf(view, orders[|orders| - 1], f)
  }

  /** The prices of the orders in which `q` has the role. */
  function Prices(orders: seq<Order>, role: Role, q: string): seq<real> {
    if orders == [] then []
    else
      Prices(orders[..|orders| - 1], role, q)
      + if Party(orders[|orders| - 1], role) == q then [orders[|orders| - 1].price] else []
  }

  function AllPrices(orders: seq<Order>): seq<real> {
    if orders == [] then [] else AllPrices(orders[..|orders| - 1]) + [orders[|orders| - 1].price]
  }

  function PriceSum(prices: seq<real>): real {
    if prices == [] then 0.0 else PriceSum(prices[..|prices| - 1]) + prices[|prices| - 1]
  }

  function FeeSum(prices: seq<real>, fee: real -> real): real {
    if prices == [] then 0.0 else FeeSum(prices[..|prices| - 1], fee) + fee(prices[|prices| - 1])
  }

  /** What `q` earns in a role on these orders. */
  function Earned(orders: seq<Order>, role: Role, q: string, f: Fees): real {
    FeeSum(Prices(orders, role, q), f.For(role))
  }

  function Revenue(orders: seq<Order>): real {
    PriceSum(AllPrices(orders))
  }

  function Done(orders: seq<Order>): seq<Order> {
    if orders == [] then []
    else Done(orders[..|orders| - 1]) + if orders[|orders| - 1].status == Completed then [orders[|orders| - 1]] else []
  }

  lemma Distribute(a: real, b: real, c: real)
    ensures (a + b) * c == a * c + b * c
  {
  }

  /** Exact fees add up to the rate times the sum of the prices. */
  lemma {:induction false} ExactFeeSum(prices: seq<real>, rate: real)
    ensures FeeSum(prices, Times(rate)) == PriceSum(prices) * rate
  {
    if prices != [] {
      ExactFeeSum(prices[..|prices| - 1], rate);
      Distribute(PriceSum(prices[..|prices| - 1]), prices[|prices| - 1], rate);
    }
  }

  lemma EarnedStep(orders: seq<Order>, role: Role, q: string, f: Fees)
    requires orders != []
    ensures var init, o := orders[..|orders| - 1], orders[|orders| - 1];
      Earned(orders, role, q, f) == Earned(init, role, q, f) + (if Party(o, role) == q then FeeOf(o, role, f) else 0.0)
  {
    var ps := Prices(orders[..|orders| - 1], role, q);
    assert (ps + [orders[|orders| - 1].price])[..|ps|] == ps;
    assert ps + [] == ps;
  }

  /** Nobody earns anything on no orders; one order more adds its fee to the earnings of
      its creator and of its player, its price to the revenue, and itself to the
      completed ones if it is. */
  lemma OneOrderMore(orders: seq<Order>, o: Order, q: string, f: Fees)
    ensures Earned([], Creator, q, f) == 0.0 && Earned([], Player, q, f) == 0.0
    ensures Revenue([]) == 0.0 && Done([]) == [] && Postings([], Income, f) == []
    ensures Earned(orders + [o], Creator, q, f)
         == Earned(orders, Creator, q, f) + if o.creator == q then f.creator(o.price) else 0.0
    ensures Earned(orders + [o], Player, q, f)
         == Earned(orders, Player, q, f) + if o.player == q then f.player(o.price) else 0.0
    ensures Revenue(orders + [o]) == Revenue(orders) + o.price
    ensures Done(orders + [o]) == if o.status == Completed then Done(orders) + [o] else Done(orders)
  {
    var all := orders + [o];
    assert all[..|orders|] == orders;
    EarnedStep(all, Creator, q, f);
    EarnedStep(all, Player, q, f);
    var ps := AllPrices(orders);
    assert (ps + [o.price])[..|ps|] == ps;
    assert Done(orders) + [] == Done(orders);
  }

  lemma DoneStep(orders: seq<Order>, role: Role, q: string, f: Fees)
    requires orders != []
    ensures var init, o := orders[..|orders| - 1], orders[|orders| - 1];
      Earned(Done(orders), role, q, f) ==
        Earned(Done(init), role, q, f)
        + (if o.status == Completed && Party(o, role) == q then FeeOf(o, role, f) else 0.0)
  {
    var init, o := orders[..|orders| - 1], orders[|orders| - 1];
    if o.status == Completed {
      assert (Done(init) + [o])[..|Done(init)|] == Done(init);
      EarnedStep(Done(orders), role, q, f);
    } else {
      assert Done(orders) == Done(init);
    }
  }

  lemma {:induction false} PostedConcat(a: seq<Posting>, b: seq<Posting>, q: string)
    ensures PostedTo(a + b, q) == PostedTo(a, q) + PostedTo(b, q)
    ensures PostedAll(a + b) == PostedAll(a) + PostedAll(b)
    ensures PostingsTo(a + b, q) == PostingsTo(a, q) + PostingsTo(b, q)
  {
    if b == [] {
      assert a + b == a;
    } else {
      var init := b[..|b| - 1];
      assert (a + b)[..|a + b| - 1] == a + init;
      PostedConcat(a, init, q);
    }
  }

  lemma PostedOne(p: Posting, q: string)
    ensures PostedTo([p], q) == if p.key == q then p.amount else 0.0
    ensures PostedAll([p]) == p.amount
    ensures PostingsTo([p], q) == if p.key == q then 1 else 0
  {
    assert [p][..0] == [];
    assert PostedTo([p][..0], q) == 0.0 && PostedAll([p][..0]) == 0.0 && PostingsTo([p][..0], q) == 0;
  }

  lemma SummaryOfOne(o: Order, role: Role, f: Fees, q: string)
    requires q != ""
    ensures PostedTo(PostingsOf(Summary(role), o, f), q) == if Party(o, role) == q then FeeOf(o, role, f) else 0.0
    ensures PostedTo(Earning(o, role, f), q) == if Party(o, role) == q then FeeOf(o, role, f) else 0.0
    ensures PostedAll(PostingsOf(Summary(role), o, f)) == if Party(o, role) == "" then 0.0 else FeeOf(o, role, f)
  {
    if Party(o, role) != "" {
      PostedOne(PostingsOf(Summary(role), o, f)[0], q);
      PostedOne(Earning(o, role, f)[0], q);
    }
  }

  /** A commission summary posts to each party its earnings in that role. */
  lemma {:induction false} SummaryShares(orders: seq<Order>, role: Role, f: Fees, q: string)
    requires q != ""
    ensures PostedTo(Postings(orders, Summary(role), f), q) == Earned(orders, role, q, f)
  {
    if orders != [] {
      var init, o := orders[..|orders| - 1], orders[|orders| - 1];
      SummaryShares(init, role, f, q);
      PostedConcat(Postings(init, Summary(role), f), PostingsOf(Summary(role), o, f), q);
      SummaryOfOne(o, role, f, q);
      EarnedStep(orders, role, q, f);
    }
  }

  /** In total it posts the fees of all orders but those without such a party. */
  lemma {:induction false} SummaryTotal(orders: seq<Order>, role: Role, f: Fees)
    ensures PostedAll(Postings(orders, Summary(role), f))
         == FeeSum(AllPrices(orders), f.For(role)) - Earned(orders, role, "", f)
  {
    if orders != [] {
      var init, o := orders[..|orders| - 1], orders[|orders| - 1];
      SummaryTotal(init, role, f);
      PostedConcat(Postings(init, Summary(role), f), PostingsOf(Summary(role), o, f), "x");
      SummaryOfOne(o, role, f, "x");
      EarnedStep(orders, role, "", f);
      assert AllPrices(orders)[..|AllPrices(orders)| - 1] == AllPrices(init);
    }
  }

  /** The ranking posts to each party its earnings in both roles on completed orders. */
  lemma {:induction false} IncomeShares(orders: seq<Order>, f: Fees, q: string)
    requires q != ""
    ensures PostedTo(Postings(orders, Income, f), q) ==
      Earned(Done(orders), Creator, q, f) + Earned(Done(orders), Player, q, f)
  {
    if orders != [] {
      var init, o := orders[..|orders| - 1], orders[|orders| - 1];
      IncomeShares(init, f, q);
      PostedConcat(Postings(init, Income, f), PostingsOf(Income, o, f), q);
      PostedConcat(Earning(o, Player, f), Earning(o, Creator, f), q);
      SummaryOfOne(o, Player, f, q);
      SummaryOfOne(o, Creator, f, q);
      DoneStep(orders, Creator, q, f);
      DoneStep(orders, Player, q, f);
    }
  }

  /** An order that is recorded, taken and completed by someone who may is one that
      the accounts count, with its price and both parties. */
  lemma CompletedCounts(s: Ledger, group: string, price: real, creator: string, nick: string, t0: int, id: nat,
                        player: string, playerNick: string, t1: int, confirmer: string, admin: bool, t2: int)
    requires Inv(s) && UnusedId(s.rows, id) && group != "" && price >= 0.0 && creator != "" && player != ""
    requires confirmer == creator || confirmer == player || admin
    ensures var number := NextNumber(s.rows, group);
      var evs := [Record(group, price, creator, nick, t0, id), Take(group, number, player, playerNick, t1),
                  Complete(group, number, confirmer, admin, t2)];
      var done := Done(OrderLedger.Run(s, evs).rows);
      && |done| == |Done(s.rows)| + 1 && done[..|Done(s.rows)|] == Done(s.rows)
      && var o := done[|Done(s.rows)|];
      && o.price == price && o.creator == creator && o.player == player && o.completed == Some(t2)
  {
    var number, k := NextNumber(s.rows, group), |s.rows|;
    var evs := [Record(group, price, creator, nick, t0, id), Take(group, number, player, playerNick, t1),
                Complete(group, number, confirmer, admin, t2)];
    var record := Record(group, price, creator, nick, t0, id);
    var take := Take(group, number, player, playerNick, t1);
    var complete := Complete(group, number, confirmer, admin, t2);
    var s1 := Apply(s, record);
    var s2 := Apply(s1, take);
    var s3 := Apply(s2, complete);
    RecordSays(s, group, price, creator, nick, t0, id);
    StepKeepsIff(s, record);
    TakeSays(s1, k, player, playerNick, t1);
    StepKeepsIff(s1, take);
    CompleteSays(s2, k, confirmer, admin, t2, false);
    RunThree(s, record, take, complete);
    assert s3.rows == s.rows + [s3.rows[k]];
    assert s3.rows[k].status == Completed && s3.rows[k].creator == creator && s3.rows[k].player == player;
    DoneSnoc(s.rows, s3.rows[k]);
    assert OrderLedger.Run(s, evs) == s3;
    var done := Done(s3.rows);
    assert done == Done(s.rows) + [s3.rows[k]] && done[|Done(s.rows)|] == s3.rows[k];
  }

  lemma DoneSnoc(orders: seq<Order>, o: Order)
    requires o.status == Completed
    ensures Done(orders + [o]) == Done(orders) + [o]
  {
    assert (orders + [o])[..|orders|] == orders;
  }

  lemma RunThree(s: Ledger, a: Event, b: Event, c: Event)
    ensures OrderLedger.Run(s, [a, b, c]) == Apply(Apply(Apply(s, a), b), c)
  {
    assert [a, b, c][1..] == [b, c] && [b, c][1..] == [c] && [c][1..] == [];
    var s1, s2 := Apply(s, a), Apply(Apply(s, a), b);
    assert OrderLedger.Run(s, [a, b, c]) == OrderLedger.Run(s1, [b, c]);
    assert OrderLedger.Run(s1, [b, c]) == OrderLedger.Run(s2, [c]);
    assert OrderLedger.Run(s2, [c]) == OrderLedger.Run(Apply(s2, c), []);
  }

  // ---------------------------------------------------------------- the statistics labels

  /** A label that starts with the id and a bracket. */
  predicate LabelOf(text: string, q: string) {
    |q| < |text| && text[..|q|] == q && text[|q|] == OPEN
  }

  /** The statistics entries of one id, over all its nicknames. */
  function AmountOfId(book: Book, q: string): real {
    if book == [] then 0.0
    else (if LabelOf(book[0].key, q) then book[0].amount else 0.0) + AmountOfId(book[1..], q)
  }

  lemma {:induction false} AmountOfIdAppend(book: Book, e: Entry, q: string)
    ensures AmountOfId(book + [e], q) == AmountOfId(book, q) + (if LabelOf(e.key, q) then e.amount else 0.0)
  {
    if book == [] {
      assert book + [e] == [e];
      assert AmountOfId([e][1..], q) == 0.0;
    } else {
      assert (book + [e])[1..] == book[1..] + [e];
      AmountOfIdAppend(book[1..], e, q);
    }
  }

  lemma {:induction false} AmountOfIdUpdate(book: Book, i: nat, e: Entry, q: string)
    requires i < |book| && e.key == book[i].key
    ensures AmountOfId(book[i := e], q) ==
      AmountOfId(book, q) + (if LabelOf(e.key, q) then e.amount - book[i].amount else 0.0)
  {
    if i > 0 {
      assert book[i := e][1..] == book[1..][i - 1 := e];
      AmountOfIdUpdate(book[1..], i - 1, e, q);
    }
  }

  function PostedToId(postings: seq<Posting>, q: string): real {
    if postings == [] then 0.0
    else
      PostedToId(postings[..|postings| - 1], q)
      + if LabelOf(postings[|postings| - 1].key, q) then postings[|postings| - 1].amount else 0.0
  }

  lemma {:induction false} StatsHold(postings: seq<Posting>, q: string)
    ensures AmountOfId(Post(postings), q) == PostedToId(postings, q)
  {
    if postings != [] {
      var init, p := postings[..|postings| - 1], postings[|postings| - 1];
      StatsHold(init, q);
      var book := Post(init);
      var i := Locate(book, p.key);
      if i.None? {
        AmountOfIdAppend(book, Entry(p.key, p.name, p.amount, 1), q);
      } else {
        AmountOfIdUpdate(book, i.value, Post(postings)[i.value], q);
      }
    }
  }

  /** Someone else's order under a label that starts with the id and a bracket. */
  predicate Stray(o: Order, role: Role, q: string) {
    Party(o, role) != q && LabelOf(Label(Party(o, role), Nick(o, role)), q)
  }

  function StrayPrices(orders: seq<Order>, role: Role, q: string): seq<real> {
    if orders == [] then []
    else
      StrayPrices(orders[..|orders| - 1], role, q)
      + if Stray(orders[|orders| - 1], role, q) then [orders[|orders| - 1].price] else []
  }

  /** The statistics post to each id, over all its nicknames, its earnings in the
      role, and the fees of the strays. */
  lemma {:induction false} StatsShares(orders: seq<Order>, role: Role, f: Fees, q: string)
    requires q != ""
    ensures PostedToId(Postings(orders, Stats(role), f), q)
         == Earned(orders, role, q, f) + FeeSum(StrayPrices(orders, role, q), f.For(role))
  {
    if orders != [] {
      var init, o := orders[..|orders| - 1], orders[|orders| - 1];
      StatsShares(init, role, f, q);
      StatsStep(Postings(init, Stats(role), f), o, role, f, q);
      EarnedStep(orders, role, q, f);
      StrayStep(orders, role, f, q);
    }
  }

  lemma StrayStep(orders: seq<Order>, role: Role, f: Fees, q: string)
    requires orders != []
    ensures var init, o := orders[..|orders| - 1], orders[|orders| - 1];
      FeeSum(StrayPrices(orders, role, q), f.For(role))
      == FeeSum(StrayPrices(init, role, q), f.For(role)) + (if Stray(o, role, q) then FeeOf(o, role, f) else 0.0)
  {
    var ps := StrayPrices(orders[..|orders| - 1], role, q);
    assert (ps + [orders[|orders| - 1].price])[..|ps|] == ps;
    assert ps + [] == ps;
  }

  lemma StatsStep(posted: seq<Posting>, o: Order, role: Role, f: Fees, q: string)
    requires q != ""
    ensures PostedToId(posted + PostingsOf(Stats(role), o, f), q)
         == PostedToId(posted, q) + if Party(o, role) == q || Stray(o, role, q) then FeeOf(o, role, f) else 0.0
  {
    assert (posted + PostingsOf(Stats(role), o, f))[..|posted|] == posted;
    OwnLabel(q, Nick(o, role));
  }

  lemma OwnLabel(q: string, nick: string)
    requires q != ""
    ensures LabelOf(Label(q, nick), q)
  {
    assert Label(q, nick) == q + ([OPEN] + Or(nick, UNKNOWN) + [CLOSE]);
  }

  /** For an id without a bracket an order is a stray exactly when its party's id
      starts with the id and a bracket, or is missing and the id is the stand-in. */
  lemma StrayIff(o: Order, role: Role, q: string)
    requires OPEN !in q
    ensures Stray(o, role, q) <==> LabelOf(Party(o, role), q) || (Party(o, role) == "" && q == UNKNOWN)
  {
    var id := Or(Party(o, role), UNKNOWN);
    var text := Label(Party(o, role), Nick(o, role));
    assert text == id + [OPEN] + (Or(Nick(o, role), UNKNOWN) + [CLOSE]);
    LabelOfWhole(id, Or(Nick(o, role), UNKNOWN) + [CLOSE], q);
    assert UNKNOWN[0] != OPEN && UNKNOWN[1] != OPEN;
  }

  lemma LabelOfWhole(id: string, tail: string, q: string)
    requires OPEN !in q
    ensures LabelOf(id + [OPEN] + tail, q) <==> id == q || LabelOf(id, q)
  {
    var text := id + [OPEN] + tail;
    assert |id| < |q| <= |text| ==> text[..|q|][|id|] == OPEN;
    assert |q| <= |id| ==> text[..|q|] == id[..|q|];
  }

  // ---------------------------------------------------------------- the four views

  datatype CommissionData = CommissionData(
    revenue: real, count: nat, creators: Book, players: Book, details: seq<Detail>,
    totals: Ratio, difference: real, consistent: bool)

  /** The line of one order with its four shares. */
  datatype Detail = Detail(
    number: int, price: real, shares: Ratio, creator: string, player: string, completed: Option<int>)

  function DetailOf(o: Order, f: Fees): Detail {
    var shares := Ratio(f.player(o.price), f.creator(o.price), f.of(o.price), f.emergency(o.price));
    Detail(o.number, o.price, shares, o.creatorNick, o.playerNick, o.completed)
  }

  function DetailsOf(orders: seq<Order>, f: Fees): seq<Detail> {
    if orders == [] then [] else DetailsOf(orders[..|orders| - 1], f) + [DetailOf(orders[|orders| - 1], f)]
  }

  datatype Part = PlayerShare | CreatorShare | OfShare | EmergencyShare

  function ShareIn(r: Ratio, share: Part): real {
    match share
    case PlayerShare => r.player
    case CreatorShare => r.creator
    case OfShare => r.of
    case EmergencyShare => r.emergency
  }

  function FeeFor(f: Fees, share: Part): real -> real {
    match share
    case PlayerShare => f.player
    case CreatorShare => f.creator
    case OfShare => f.of
    case EmergencyShare => f.emergency
  }

  /** What the lines give to one share. */
  function LineSum(details: seq<Detail>, share: Part): real {
    if details == [] then 0.0
    else LineSum(details[..|details| - 1], share) + ShareIn(details[|details| - 1].shares, share)
  }

  /** There is one line for each order, in order, with its price, its four fees, the
      nicknames of its parties and its time. */
  lemma {:induction false} LineSays(orders: seq<Order>, f: Fees, i: nat)
    requires i < |orders|
    ensures |DetailsOf(orders, f)| == |orders|
    ensures var d, o := DetailsOf(orders, f)[i], orders[i];
      && d.number == o.number && d.price == o.price && d.completed == o.completed
      && d.creator == o.creatorNick && d.player == o.playerNick
      && d.shares.player == f.player(o.price) && d.shares.creator == f.creator(o.price)
      && d.shares.of == f.of(o.price) && d.shares.emergency == f.emergency(o.price)
  {
    var init := orders[..|orders| - 1];
    if i < |init| {
      LineSays(init, f, i);
    } else if init != [] {
      LineSays(init, f, 0);
    }
  }

  /** Exact fees are the price times the ratio of that name. */
  lemma ExactFeesSay(r: Ratio, price: real)
    ensures var f := ExactFees(r);
      && f.player(price) == price * r.player && f.creator(price) == price * r.creator
      && f.of(price) == price * r.of && f.emergency(price) == price * r.emergency
  {
  }

  lemma {:induction false} LineShares(orders: seq<Order>, share: Part, f: Fees)
    ensures LineSum(DetailsOf(orders, f), share) == FeeSum(AllPrices(orders), FeeFor(f, share))
  {
    if orders != [] {
      var init, o := orders[..|orders| - 1], orders[|orders| - 1];
      LineShares(init, share, f);
      assert DetailsOf(orders, f)[..|DetailsOf(init, f)|] == DetailsOf(init, f);
      assert AllPrices(orders)[..|AllPrices(init)|] == AllPrices(init);
    }
  }

  /** The lines give a role what its summary holds in total, and the fees of the
      orders that name nobody in the role. */
  lemma DetailsAddUp(d: CommissionData, orders: seq<Order>, f: Fees, r: Ratio)
    requires IsCommission(d, orders, f, r)
    ensures LineSum(d.details, CreatorShare) == d.totals.creator + Earned(orders, Creator, "", f)
    ensures LineSum(d.details, PlayerShare) == d.totals.player + Earned(orders, Player, "", f)
  {
    LineShares(orders, CreatorShare, f);
    LineShares(orders, PlayerShare, f);
    TotalOfRole(orders, Creator, f);
    TotalOfRole(orders, Player, f);
  }

  lemma FundLines(orders: seq<Order>, creators: Book, players: Book, r: Ratio)
    ensures FeeSum(AllPrices(orders), Times(r.of)) == TotalsOf(Revenue(orders), creators, players, r).of
    ensures FeeSum(AllPrices(orders), Times(r.emergency)) == TotalsOf(Revenue(orders), creators, players, r).emergency
  {
    ExactFeeSum(AllPrices(orders), r.of);
    ExactFeeSum(AllPrices(orders), r.emergency);
  }

  /** With exact fees the lines give the two funds their totals. */
  lemma FundsAddUp(d: CommissionData, orders: seq<Order>, r: Ratio)
    requires IsCommission(d, orders, ExactFees(r), r)
    ensures LineSum(d.details, OfShare) == d.totals.of
    ensures LineSum(d.details, EmergencyShare) == d.totals.emergency
  {
    LineShares(orders, OfShare, ExactFees(r));
    LineShares(orders, EmergencyShare, ExactFees(r));
    FundLines(orders, d.creators, d.players, r);
  }

  /** The difference is how far the four totals together are from the revenue, on either
      side, and it counts as consistent up to a cent. */
  lemma DifferenceSays(d: CommissionData, orders: seq<Order>, f: Fees, r: Ratio)
    requires IsCommission(d, orders, f, r)
    ensures var sum := d.totals.player + d.totals.creator + d.totals.of + d.totals.emergency;
      && d.difference >= 0.0 && (d.difference == d.revenue - sum || d.difference == sum - d.revenue)
      && (d.consistent <==> d.difference <= 0.01)
  {
    AwayFrom(d.revenue, d.totals);
  }

  lemma AwayFrom(revenue: real, t: Ratio)
    ensures var sum, away := t.player + t.creator + t.of + t.emergency, Abs(revenue - t.Sum());
      away >= 0.0 && (away == revenue - sum || away == sum - revenue)
  {
  }

  /** The totals are the sums of the two summaries and the ratios of the two funds of the revenue. */
  lemma TotalsSay(d: CommissionData, r: Ratio)
    requires d.totals == TotalsOf(d.revenue, d.creators, d.players, r)
    ensures d.totals.player == Total(d.players) && d.totals.creator == Total(d.creators)
    ensures d.totals.of == d.revenue * r.of && d.totals.emergency == d.revenue * r.emergency
  {
  }

  function Abs(x: real): real {
    if x < 0.0 then -x else x
  }

  lemma PostSnoc(a: seq<Posting>, b: seq<Posting>)
    requires |b| <= 1
    ensures Post(a + b) == if b == [] then Post(a) else Credit(Post(a), b[0].key, b[0].name, b[0].amount)
  {
    if b == [] {
      assert a + b == a;
    } else {
      assert (a + b)[..|a|] == a;
    }
  }

  lemma NextOrder(orders: seq<Order>, k: nat, view: View, f: Fees)
    requires k < |orders|
    ensures Postings(orders[..k + 1], view, f) == Postings(orders[..k], view, f) + PostingsOf(view, orders[k], f)
    ensures AllPrices(orders[..k + 1]) == AllPrices(orders[..k]) + [orders[k].price]
    ensures Revenue(orders[..k + 1]) == Revenue(orders[..k]) + orders[k].price
  {
    assert orders[..k + 1][..k] == orders[..k];
    var ps := AllPrices(orders[..k]);
    assert (ps + [orders[k].price])[..|ps|] == ps;
  }

  lemma NextDetail(orders: seq<Order>, k: nat, f: Fees)
    requires k < |orders|
    ensures DetailsOf(orders[..k + 1], f) == DetailsOf(orders[..k], f) + [DetailOf(orders[k], f)]
  {
    assert orders[..k + 1][..k] == orders[..k];
  }

  method CreditParty(book: Book, orders: seq<Order>, k: nat, role: Role, f: Fees) returns (r: Book)
    requires k < |orders| && book == Post(Postings(orders[..k], Summary(role), f))
    ensures r == Post(Postings(orders[..k + 1], Summary(role), f))
  {
    var o := orders[k];
    NextOrder(orders, k, Summary(role), f);
    PostSnoc(Postings(orders[..k], Summary(role), f), PostingsOf(Summary(role), o, f));
    var key := Party(o, role);
    r := if key == "" then book else Credit(book, key, Or(Nick(o, role), key), f.For(role)(o.price));
  }

  /** The running results of the commission fold. */
  method FoldOrders(orders: seq<Order>, f: Fees)
      returns (revenue: real, creators: Book, players: Book, details: seq<Detail>)
    ensures revenue == Revenue(orders) && details == DetailsOf(orders, f)
    ensures creators == Post(Postings(orders, Summary(Creator), f))
    ensures players == Post(Postings(orders, Summary(Player), f))
  {
    revenue, creators, players, details := 0.0, [], [], [];
    for k := 0 to |orders|
      invariant revenue == Revenue(orders[..k]) && details == DetailsOf(orders[..k], f)
      invariant creators == Post(Postings(orders[..k], Summary(Creator), f))
      invariant players == Post(Postings(orders[..k], Summary(Player), f))
    {
      NextOrder(orders, k, Income, f);
      revenue := revenue + orders[k].price;
      creators := CreditParty(creators, orders, k, Creator, f);
      players := CreditParty(players, orders, k, Player, f);
      NextDetail(orders, k, f);
      details := details + [DetailOf(orders[k], f)];
    }
    assert orders[..|orders|] == orders;
  }

  /** The four totals of a commission summary. */
  function TotalsOf(revenue: real, creators: Book, players: Book, r: Ratio): Ratio {
    Ratio(Total(players), Total(creators), revenue * r.of, revenue * r.emergency)
  }

  /** Commission summary of a list of orders. */
  method BuildCommissionData(orders: seq<Order>, f: Fees, r: Ratio) returns (d: CommissionData)
    ensures IsCommission(d, orders, f, r)
  {
    var revenue, creators, players, details := FoldOrders(orders, f);
    var totals := TotalsOf(revenue, creators, players, r);
    var difference := Abs(revenue - totals.Sum());
    d := CommissionData(revenue, |orders|, creators, players, details, totals, difference, difference <= 0.01);
  }

  ghost predicate IsCommission(d: CommissionData, orders: seq<Order>, f: Fees, r: Ratio) {
    && d.revenue == Revenue(orders) && d.count == |orders|
    && d.creators == Post(Postings(orders, Summary(Creator), f))
    && d.players == Post(Postings(orders, Summary(Player), f))
    && d.details == DetailsOf(orders, f)
    && d.totals == TotalsOf(d.revenue, d.creators, d.players, r)
    && (d.consistent <==> d.difference <= 0.01)
    && d.difference == Abs(d.revenue - d.totals.Sum())
  }

  /** Revenue times what the ratios miss, plus the shares of orders that name no
      creator or no player. */
  function LeftOver(revenue: real, noCreator: real, noPlayer: real, r: Ratio): real {
    (1.0 - r.Sum()) * revenue + r.creator * noCreator + r.player * noPlayer
  }

  /** The share of a role: the rate on everything, less what names nobody in that role. */
  function Share(revenue: real, nobody: real, rate: real): real {
    revenue * rate - nobody * rate
  }

  lemma Reconcile(d: CommissionData, r: Ratio, c: real, p: real)
    requires d.totals == TotalsOf(d.revenue, d.creators, d.players, r)
    requires d.totals.player == Share(d.revenue, p, r.player) && d.totals.creator == Share(d.revenue, c, r.creator)
    ensures d.revenue - d.totals.Sum() == LeftOver(d.revenue, c, p, r)
  {
  }

  lemma FeeShare(all: seq<real>, nobody: seq<real>, rate: real)
    ensures FeeSum(all, Times(rate)) - FeeSum(nobody, Times(rate)) == Share(PriceSum(all), PriceSum(nobody), rate)
  {
    ExactFeeSum(all, rate);
    ExactFeeSum(nobody, rate);
  }

  lemma TotalOfRole(orders: seq<Order>, role: Role, f: Fees)
    ensures Total(Post(Postings(orders, Summary(role), f)))
         == FeeSum(AllPrices(orders), f.For(role)) - FeeSum(Prices(orders, role, ""), f.For(role))
  {
    PostHolds(Postings(orders, Summary(role), f), "x");
    SummaryTotal(orders, role, f);
  }

  /** The exact reconciliation, for any orders and ratios: what the four shares
      leave over is revenue times what the ratios miss, plus the shares of the
      orders that name nobody in a role. */
  lemma DifferenceIs(d: CommissionData, orders: seq<Order>, r: Ratio, noCreator: real, noPlayer: real)
    requires IsCommission(d, orders, ExactFees(r), r)
    requires noCreator == PriceSum(Prices(orders, Creator, "")) && noPlayer == PriceSum(Prices(orders, Player, ""))
    ensures d.difference == Abs(LeftOver(d.revenue, noCreator, noPlayer, r))
  {
    var f, all := ExactFees(r), AllPrices(orders);
    assert d.totals.player == Share(d.revenue, noPlayer, r.player) by {
      TotalOfRole(orders, Player, f);
      FeeShare(all, Prices(orders, Player, ""), r.player);
    }
    assert d.totals.creator == Share(d.revenue, noCreator, r.creator) by {
      TotalOfRole(orders, Creator, f);
      FeeShare(all, Prices(orders, Creator, ""), r.creator);
    }
    Reconcile(d, r, noCreator, noPlayer);
  }

  lemma {:induction false} NobodyMissing(orders: seq<Order>, role: Role)
    requires forall o :: o in orders ==> Party(o, role) != ""
    ensures Prices(orders, role, "") == []
  {
    if orders != [] {
      var init := orders[..|orders| - 1];
      assert orders[|orders| - 1] in orders && forall o :: o in init ==> o in orders;
      NobodyMissing(init, role);
    }
  }

  /** A summary of orders that all have both parties is off by what the ratios
      miss, and balances when they add up to 1. */
  lemma PartiesReconcile(orders: seq<Order>, r: Ratio, d: CommissionData)
    requires forall o :: o in orders ==> o.creator != "" && o.player != ""
    requires IsCommission(d, orders, ExactFees(r), r)
    ensures Balances(d, r)
  {
    NobodyMissing(orders, Creator);
    NobodyMissing(orders, Player);
    DifferenceIs(d, orders, r, 0.0, 0.0);
    BalancesIf(d, r);
  }

  lemma BalancesIf(d: CommissionData, r: Ratio)
    requires d.difference == Abs(LeftOver(d.revenue, 0.0, 0.0, r)) && (d.consistent <==> d.difference <= 0.01)
    ensures Balances(d, r)
  {
  }

  predicate Balances(d: CommissionData, r: Ratio) {
    && d.difference == Abs((1.0 - r.Sum()) * d.revenue)
    && (d.consistent <==> Abs((1.0 - r.Sum()) * d.revenue) <= 0.01)
    && (r.Sum() == 1.0 ==> d.difference == 0.0)
  }

  /** Completed orders of a ledger after any run have both parties, so their
      summary is off by nothing but what the ratios miss. */
  lemma LedgerReconciles(s: Ledger, evs: seq<Event>, orders: seq<Order>, r: Ratio, d: CommissionData)
    requires Inv(s) && AllNamed(s, evs)
    requires forall o :: o in orders ==> o in Run(s, evs).rows && o.status == Completed
    requires IsCommission(d, orders, ExactFees(r), r)
    ensures Balances(d, r)
  {
    RunKeeps(s, evs);
    BothParties(Run(s, evs), orders);
    PartiesReconcile(orders, r, d);
  }

  lemma BothParties(s: Ledger, orders: seq<Order>)
    requires Inv(s)
    requires forall o :: o in orders ==> o in s.rows && o.status == Completed
    ensures forall o :: o in orders ==> o.creator != "" && o.player != ""
  {
    forall o | o in orders ensures Sound(o) {
      var k :| 0 <= k < |s.rows| && s.rows[k] == o;
    }
  }
}

/** Cutting a long message into chunks, and a list into pages. */
module SplitMessage {
  import opened PyText
  import opened Options

  /** The last position of `c`, or -1. */
  function RFind(s: string, c: char): (i: int)
    ensures -1 <= i < |s| && (i >= 0 ==> s[i] == c)
  {
    if s == "" then -1 else if s[|s| - 1] == c then |s| - 1 else RFind(s[..|s| - 1], c)
  }

  /** Behind the last newline, else behind the last blank, of the second half; else at the limit. */
  function Cut(head: string, limit: nat): (cut: nat)
    requires |head| == limit > 0
    ensures limit / 2 < cut <= limit
  {
    var newline := RFind(head, '\n');
    var at := if newline <= limit / 2 then RFind(head, ' ') else newline;
    if at <= limit / 2 then limit else at + 1
  }

  lemma {:induction false} RFindSays(s: string, c: char)
    ensures forall i :: RFind(s, c) < i < |s| ==> s[i] != c
    ensures RFind(s, c) == -1 <==> c !in s
  {
    if s != "" && s[|s| - 1] != c {
      RFindSays(s[..|s| - 1], c);
      assert s == s[..|s| - 1] + [s[|s| - 1]];
    }
  }

  /** The position `i` holds the last `c` of the text, and lies in its second half. */
  predicate LastInSecondHalf(head: string, c: char, i: int) {
    |head| / 2 < i < |head| && head[i] == c && forall j :: i < j < |head| ==> head[j] != c
  }

  /** The second half has a newline: the cut is behind the last one. It has none but
      a blank: behind the last blank. Neither: at the limit. */
  lemma CutSays(head: string, limit: nat, i: int)
    requires |head| == limit > 0
    ensures LastInSecondHalf(head, '\n', i) ==> Cut(head, limit) == i + 1
    ensures (forall j :: limit / 2 < j < limit ==> head[j] != '\n') && LastInSecondHalf(head, ' ', i) ==>
      Cut(head, limit) == i + 1
    ensures (forall j :: limit / 2 < j < limit ==> head[j] != '\n' && head[j] != ' ') ==> Cut(head, limit) == limit
  {
    RFindSays(head, '\n');
    RFindSays(head, ' ');
  }

  /** A text within the limit is one chunk; a longer one is cut, stripped behind the
      cut and in front of the rest. The limit is never below 200. */
  lemma ChunksSay(text: string, wanted: int)
    ensures var limit := Limit(wanted);
      && limit >= 200 && limit >= wanted && (limit == 200 || limit == wanted)
      && (text == "" ==> Chunks(text, limit) == [])
      && (0 < |text| <= limit ==> Chunks(text, limit) == [text])
      && (|text| > limit ==>
            var cut := Cut(text[..limit], limit);
            Chunks(text, limit) == [RStrip(text[..cut])] + Chunks(LStrip(text[cut..]), limit))
  {
    if |text| > Limit(wanted) {
      LStripLength(text[Cut(text[..Limit(wanted)], Limit(wanted))..]);
    }
  }

  function Chunks(text: string, limit: nat): seq<string>
    requires limit > 0
    decreases |text|
  {
    if |text| <= limit then (if text == "" then [] else [text])
    else
      var cut := Cut(text[..limit], limit);
      LStripLength(text[cut..]);
      [RStrip(text[..cut])] + Chunks(LStrip(text[cut..]), limit)
  }

  lemma LStripLength(s: string)
    ensures |LStrip(s)| <= |s|
  {
    LStripSuffix(s);
  }

  function Limit(limit: int): nat {
    if limit < 200 then 200 else limit
  }

  method Split(text: string, wanted: int) returns (chunks: seq<string>)
    ensures chunks == Chunks(text, Limit(wanted))
  {
    var limit := Limit(wanted);
    if |text| <= limit {
      return if text == "" then [] else [text];
    }
    chunks := [];
    var remainder := text;
    ghost var whole := Chunks(text, limit);
    while |remainder| > limit
      invariant whole == chunks + Chunks(remainder, limit)
      decreases |remainder|
    {
      var cut := FindCut(remainder[..limit], limit);
      NextChunk(remainder, limit, chunks, whole);
      LStripLength(remainder[cut..]);
      chunks := chunks + [RStrip(remainder[..cut])];
      remainder := LStrip(remainder[cut..]);
    }
    if remainder != "" {
      chunks := chunks + [remainder];
    }
  }

  lemma NextChunk(text: string, limit: nat, chunks: seq<string>, whole: seq<string>)
    requires |text| > limit > 0 && whole == chunks + Chunks(text, limit)
    ensures var cut := Cut(text[..limit], limit);
      whole == chunks + [RStrip(text[..cut])] + Chunks(LStrip(text[cut..]), limit)
  {
    var cut := Cut(text[..limit], limit);
    Regroup(chunks, [RStrip(text[..cut])], Chunks(LStrip(text[cut..]), limit));
  }

  lemma Regroup<T>(a: seq<T>, b: seq<T>, c: seq<T>)
    ensures a + (b + c) == a + b + c
  {
  }

  method FindCut(head: string, limit: nat) returns (cut: nat)
    requires |head| == limit > 0
    ensures cut == Cut(head, limit)
  {
    var at := RFind(head, '\n');
    if at <= limit / 2 {
      at := RFind(head, ' ');
    }
    if at <= limit / 2 {
      cut := limit;
    } else {
      cut := at + 1;
    }
  }

  // ---------------------------------------------------------------- nothing is lost but blanks between chunks

  predicate AllBlank(gaps: seq<string>) {
    forall i :: 0 <= i < |gaps| ==> Blank(gaps[i])
  }

  /** The chunks with a gap behind each. */
  function Weave(chunks: seq<string>, gaps: seq<string>): string
    requires |chunks| == |gaps|
  {
    if chunks == [] then "" else chunks[0] + gaps[0] + Weave(chunks[1..], gaps[1..])
  }

  /** What is stripped at each cut. */
  function Gaps(text: string, limit: nat): seq<string>
    requires limit > 0
    decreases |text|
  {
    if |text| <= limit then (if text == "" then [] else [""])
    else
      var cut := Cut(text[..limit], limit);
      LStripLength(text[cut..]);
      RStripLength(text[..cut]);
      var rest := LStrip(text[cut..]);
      [text[|RStrip(text[..cut])|..|text| - |rest|]] + Gaps(rest, limit)
  }

  lemma RStripLength(s: string)
    ensures |RStrip(s)| <= |s|
  {
    RStripPrefix(s);
  }

  lemma OneCut(text: string, cut: nat)
    requires cut <= |text|
    ensures var head, rest := RStrip(text[..cut]), LStrip(text[cut..]);
      && |head| + |rest| <= |text|
      && text == head + text[|head|..|text| - |rest|] + rest
      && Blank(text[|head|..|text| - |rest|])
  {
    var head, rest := RStrip(text[..cut]), LStrip(text[cut..]);
    RStripPrefix(text[..cut]);
    LStripSuffix(text[cut..]);
    BlankAcross(text, |head|, cut, |text| - |rest|);
    assert head == text[..|head|] && rest == text[|text| - |rest|..];
    ThreeParts(text, |head|, |text| - |rest|);
  }

  lemma BlankAcross(text: string, a: nat, cut: nat, b: nat)
    requires a <= cut <= b <= |text|
    requires forall i :: a <= i < cut ==> IsSpace(text[..cut][i])
    requires forall i :: 0 <= i < b - cut ==> IsSpace(text[cut..][i])
    ensures Blank(text[a..b])
  {
    forall i | a <= i < b ensures IsSpace(text[i]) {
      assert i < cut ==> text[..cut][i] == text[i];
      assert i >= cut ==> text[cut..][i - cut] == text[i];
    }
  }

  lemma ThreeParts<T>(s: seq<T>, a: nat, b: nat)
    requires a <= b <= |s|
    ensures s == s[..a] + s[a..b] + s[b..]
  {
  }

  lemma {:induction false} ChunksWeave(text: string, limit: nat)
    requires limit > 0
    ensures |Chunks(text, limit)| == |Gaps(text, limit)|
    ensures AllBlank(Gaps(text, limit)) && Weave(Chunks(text, limit), Gaps(text, limit)) == text
    decreases |text|
  {
    if |text| > limit {
      var cut := Cut(text[..limit], limit);
      OneCut(text, cut);
      LStripLength(text[cut..]);
      ChunksWeave(LStrip(text[cut..]), limit);
    } else if text != "" {
      assert [text][1..] == [] && Weave([text], [""]) == text + "" + Weave([], []);
    }
  }

  /** The text is its chunks in order with nothing but white space between and behind them. */
  lemma SplitLosesBlanksOnly(text: string, wanted: int)
    ensures exists gaps {:trigger AllBlank(gaps)} ::
      |gaps| == |Chunks(text, Limit(wanted))| && AllBlank(gaps) && Weave(Chunks(text, Limit(wanted)), gaps) == text
  {
    ChunksWeave(text, Limit(wanted));
    assert AllBlank(Gaps(text, Limit(wanted)));
  }

  // ---------------------------------------------------------------- sizes

  predicate Fit(chunks: seq<string>, limit: nat) {
    forall i :: 0 <= i < |chunks| ==> |chunks[i]| <= limit
  }

  lemma {:induction false} ChunksFit(text: string, limit: nat)
    requires limit > 0
    ensures Fit(Chunks(text, limit), limit)
    decreases |text|
  {
    if |text| > limit {
      var cut := Cut(text[..limit], limit);
      RStripLength(text[..cut]);
      LStripLength(text[cut..]);
      ChunksFit(LStrip(text[cut..]), limit);
    }
  }

  predicate NoneEmpty(chunks: seq<string>) {
    forall i :: 0 <= i < |chunks| ==> chunks[i] != ""
  }

  /** A text that does not start with white space has no empty chunk. */
  lemma {:induction false} ChunksNotEmpty(text: string, limit: nat)
    requires limit > 0 && (text != "" ==> !IsSpace(text[0]))
    ensures NoneEmpty(Chunks(text, limit))
    decreases |text|
  {
    if |text| > limit {
      var cut := Cut(text[..limit], limit);
      LStripSuffix(text[cut..]);
      ChunksNotEmpty(LStrip(text[cut..]), limit);
      KeepsItsHead(text[..cut]);
    }
  }

  lemma KeepsItsHead(head: string)
    requires head != "" && !IsSpace(head[0])
    ensures RStrip(head) != ""
  {
    BlankHead(head);
  }

  lemma BlankHead(head: string)
    ensures RStrip(head) == "" <==> Blank(head)
  {
    RStripPrefix(head);
    var kept := RStrip(head);
    assert kept != "" ==> head[|kept| - 1] == kept[|kept| - 1];
  }

  /** Only the first chunk can be empty, and it is exactly when a long text
      starts with white space up to the first cut. */
  lemma OnlyFirstEmpty(text: string, wanted: int)
    ensures var limit := Limit(wanted);
      var chunks := Chunks(text, limit);
      && (chunks != [] ==> NoneEmpty(chunks[1..]))
      && (chunks != [] && chunks[0] == "" <==> |text| > limit && Blank(text[..Cut(text[..limit], limit)]))
  {
    var limit := Limit(wanted);
    if |text| > limit {
      var cut := Cut(text[..limit], limit);
      var rest := LStrip(text[cut..]);
      LStripSuffix(text[cut..]);
      ChunksNotEmpty(rest, limit);
      BlankHead(text[..cut]);
      assert ([RStrip(text[..cut])] + Chunks(rest, limit))[1..] == Chunks(rest, limit);
    }
  }

  lemma {:induction false} ChunksCount(text: string, limit: nat)
    requires limit >= 2
    ensures |Chunks(text, limit)| * (limit / 2) <= |text| + limit / 2
    decreases |text|
  {
    if |text| > limit {
      var cut := Cut(text[..limit], limit);
      var rest := LStrip(text[cut..]);
      LStripLength(text[cut..]);
      ChunksCount(rest, limit);
      OneMore(|Chunks(rest, limit)|, limit / 2);
    } else if text != "" {
      OneMore(0, limit / 2);
    }
  }

  lemma OneMore(n: nat, h: nat)
    ensures (n + 1) * h == n * h + h
  {
  }

  lemma CountBound(n: nat, h: nat, length: nat)
    requires h > 0 && n * h <= length + h
    ensures n <= length / h + 1
  {
    var q := length / h;
    assert length == q * h + length % h;
    OneMore(q, h);
    OneMore(q + 1, h);
    if n >= q + 2 {
      Monotone(q + 2, n, h);
    }
  }

  lemma Monotone(a: nat, b: nat, h: nat)
    requires a <= b
    ensures a * h <= b * h
  {
  }

  /** A text is cut into at most one chunk per half a limit, and one more. */
  lemma SplitSizes(text: string, wanted: int)
    ensures var chunks, limit := Chunks(text, Limit(wanted)), Limit(wanted);
      Fit(chunks, limit) && |chunks| <= |text| / (limit / 2) + 1
  {
    ChunksFit(text, Limit(wanted));
    ChunksCount(text, Limit(wanted));
    CountBound(|Chunks(text, Limit(wanted))|, Limit(wanted) / 2, |text|);
  }

  // ---------------------------------------------------------------- pages

  /** Division rounded down, for either sign of the divisor. */
  function FloorDiv(a: int, b: int): int
    requires b != 0
  {
    if b > 0 then a / b else (-a) / (-b)
  }

  function PageCount(total: nat, size: int): (n: nat)
    requires size != 0
    ensures n >= 1
  {
    var n := FloorDiv(total + size - 1, size);
    if n < 1 then 1 else n
  }

  function Clamp(page: int, pages: nat): nat
    requires pages >= 1
  {
    if page < 1 then 1 else if page > pages then pages else page
  }

  /** A slice bound: negative counts from the end, and is cut to the list. */
  function Bound(i: int, length: nat): nat {
    if i < 0 then (if i + length < 0 then 0 else i + length) else if i > length then length else i
  }

  function Slice<T>(items: seq<T>, start: int, stop: int): seq<T> {
    var from, to := Bound(start, |items|), Bound(stop, |items|);
    if from <= to then items[from..to] else []
  }

  /** The page nearest to the wanted one, the number of pages and of items;
      with a page size of 0 the division fails. */
  function Paginate<T>(items: seq<T>, page: int, size: int): Option<(seq<T>, nat, nat)> {
    if size == 0 then None
    else
      var pages := PageCount(|items|, size);
      var start := (Clamp(page, pages) - 1) * size;
      Some((Slice(items, start, start + size), pages, |items|))
  }

  /** The items of one page. */
  function Page<T>(items: seq<T>, k: nat, size: int): seq<T>
    requires size != 0
  {
    Paginate(items, k, size).value.0
  }

  /** The number of pages is the least that holds all items, and 1 for none. */
  lemma PageCountSays(total: nat, size: nat)
    requires size > 0
    ensures var n := PageCount(total, size);
      && n >= 1 && total <= n * size && (total > 0 ==> (n - 1) * size < total) && (total == 0 ==> n == 1)
  {
    if total > 0 {
      CeilBounds(total, size);
    } else {
      assert (size - 1) / size == 0;
    }
  }

  /** A page number below 1 means the first page and one above the last the last;
      the answer tells how many pages and items there are. */
  lemma PaginateSays<T>(items: seq<T>, page: int, size: int)
    requires size != 0
    ensures var n := PageCount(|items|, size);
      && Paginate(items, page, size).Some?
      && Paginate(items, page, size).value.1 == n && Paginate(items, page, size).value.2 == |items|
      && (page < 1 ==> Paginate(items, page, size) == Paginate(items, 1, size))
      && (page > n ==> Paginate(items, page, size) == Paginate(items, n, size))
  {
  }

  lemma NoProduct(n: int, size: nat)
    requires n <= 0
    ensures n * size <= 0
  {
  }

  lemma CeilBounds(total: nat, size: nat)
    requires size > 0 && total > 0
    ensures var n := (total + size - 1) / size; n >= 1 && (n - 1) * size < total <= n * size
  {
    var n := (total + size - 1) / size;
    assert total + size - 1 == n * size + (total + size - 1) % size;
    assert (n - 1) * size == n * size - size;
    if n <= 0 {
      NoProduct(n, size);
    }
  }

  function FirstPages<T>(items: seq<T>, size: int, k: nat): seq<T>
    requires size != 0
  {
    if k == 0 then [] else FirstPages(items, size, k - 1) + Page(items, k, size)
  }

  /** Where the k-th page ends if it is full. */
  function End(k: nat, size: nat): nat {
    if k == 0 then 0 else End(k - 1, size) + size
  }

  lemma {:induction false} EndIs(k: nat, size: nat)
    ensures End(k, size) == k * size
  {
    if k > 0 {
      EndIs(k - 1, size);
      OneMore(k - 1, size);
    }
  }

  /** A page that is not the last is full. */
  lemma FullPage<T>(items: seq<T>, size: nat, k: nat)
    requires size > 0 && 1 <= k < PageCount(|items|, size)
    ensures End(k - 1, size) <= End(k, size) <= |items|
    ensures Page(items, k, size) == items[End(k - 1, size)..End(k, size)]
  {
    var n := PageCount(|items|, size);
    assert items != [];
    CeilBounds(|items|, size);
    Monotone(k, n - 1, size);
    EndIs(k - 1, size);
    EndIs(k, size);
  }

  /** The pages before the last hold the first items, in order. */
  lemma {:induction false} PagesInOrder<T>(items: seq<T>, size: nat, k: nat)
    requires size > 0 && k < PageCount(|items|, size)
    ensures End(k, size) <= |items| && FirstPages(items, size, k) == items[..End(k, size)]
  {
    if k > 0 {
      PagesInOrder(items, size, k - 1);
      FullPage(items, size, k);
      OnePageMore(items, size, k, End(k - 1, size), End(k, size));
    }
  }

  lemma OnePageMore<T>(items: seq<T>, size: nat, k: nat, a: nat, b: nat)
    requires size > 0 && k > 0 && a <= b <= |items|
    requires FirstPages(items, size, k - 1) == items[..a] && Page(items, k, size) == items[a..b]
    ensures FirstPages(items, size, k) == items[..b]
  {
    assert items[..a] + items[a..b] == items[..b];
  }

  lemma LastPage<T>(items: seq<T>, size: nat)
    requires size > 0
    ensures var n := PageCount(|items|, size);
      End(n - 1, size) <= |items| && Page(items, n, size) == items[End(n - 1, size)..]
  {
    var n := PageCount(|items|, size);
    EndIs(n - 1, size);
    if items != [] {
      CeilBounds(|items|, size);
      OneMore(n - 1, size);
    }
  }

  lemma PositivePages<T>(items: seq<T>, size: nat)
    requires size > 0
    ensures FirstPages(items, size, PageCount(|items|, size)) == items
  {
    var n := PageCount(|items|, size);
    PagesInOrder(items, size, n - 1);
    LastPage(items, size);
    OnePageMore(items, size, n, End(n - 1, size), |items|);
  }

  /** A negative size makes one page of a list with items. */
  lemma OnePage(total: nat, size: int)
    requires size < 0 < total
    ensures PageCount(total, size) == 1
  {
    var a, b := 1 - total - size, -size;
    assert a <= b && total + size - 1 == -a;
  }

  /** Which lacks as many items at the end. */
  lemma NegativePages<T>(items: seq<T>, size: int)
    requires size < 0 && items != []
    ensures FirstPages(items, size, PageCount(|items|, size))
         == items[..if |items| + size > 0 then |items| + size else 0]
  {
    OnePage(|items|, size);
    assert FirstPages(items, size, 0) == [];
    assert FirstPages(items, size, 1) == FirstPages(items, size, 0) + Page(items, 1, size);
    assert 0 * size == 0;
  }

  lemma {:induction false} PagesOfNothing<T>(items: seq<T>, size: int, k: nat)
    requires size != 0 && items == []
    ensures FirstPages(items, size, k) == []
  {
    if k > 0 {
      PagesOfNothing(items, size, k - 1);
      assert Page(items, k, size) == [];
    }
  }

  /** All pages in order are the list exactly when the page size is positive or
      the list is empty; only a size of 0 gives no page at all. */
  lemma PagesAreTheListIff<T>(items: seq<T>, size: int)
    ensures Paginate(items, 1, size).None? <==> size == 0
    ensures size != 0 ==>
      (FirstPages(items, size, PageCount(|items|, size)) == items <==> size > 0 || items == [])
  {
    if size > 0 {
      PositivePages(items, size);
    } else if size < 0 {
      if items == [] {
        PagesOfNothing(items, size, PageCount(0, size));
      } else {
        NegativePages(items, size);
      }
    }
  }
}

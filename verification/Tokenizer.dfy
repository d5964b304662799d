/** Splitting the argument text of a command into tokens, with single and double quotes. */
module Tokenizer {
  import opened PyText

  /** The tokens so far, the one being read, and the quote that is open. */
  datatype Scan = Scan(tokens: seq<string>, current: string, single: bool, double: bool)

  const START := Scan([], "", false, false)

  function Step(s: Scan, c: char): Scan {
    if c == '\'' && !s.double then s.(single := !s.single)
    else if c == '"' && !s.single then s.(double := !s.double)
    else if IsSpace(c) && !s.single && !s.double then
      if s.current != "" then s.(tokens := s.tokens + [s.current], current := "") else s
    else s.(current := s.current + [c])
  }

  function Steps(s: Scan, text: string): Scan
    decreases |text|
  {
    if text == "" then s else Steps(Step(s, text[0]), text[1..])
  }

  function Finish(s: Scan): seq<string> {
    if s.current != "" then s.tokens + [s.current] else s.tokens
  }

  predicate Balanced(text: string) {
    !Steps(START, text).single && !Steps(START, text).double
  }

  /** A text with an open quote at its end is split at white space alone. */
  function Tokenize(text: string): seq<string> {
    if Strip(text) == "" then []
    else if !Balanced(text) then Words(text)
    else Finish(Steps(START, text))
  }

  method TokenizeArgs(text: string) returns (tokens: seq<string>)
    ensures tokens == Tokenize(text)
  {
    if Strip(text) == "" {
      return [];
    }
    tokens := [];
    var current, single, double := "", false, false;
    for k := 0 to |text|
      invariant Steps(START, text) == Steps(Scan(tokens, current, single, double), text[k..])
    {
      var c := text[k];
      assert text[k..][0] == c && text[k..][1..] == text[k + 1..];
      if c == '\'' && !double {
        single := !single;
        continue;
      }
      if c == '"' && !single {
        double := !double;
        continue;
      }
      if IsSpace(c) && !single && !double {
        if current != "" {
          tokens, current := tokens + [current], "";
        }
        continue;
      }
      current := current + [c];
    }
    assert text[|text|..] == "";
    if single || double {
      return Words(text);
    }
    if current != "" {
      tokens := tokens + [current];
    }
  }

  lemma {:induction false} StepsConcat(s: Scan, a: string, b: string)
    ensures Steps(s, a + b) == Steps(Steps(s, a), b)
    decreases |a|
  {
    if a == "" {
      assert a + b == b;
    } else {
      assert (a + b)[1..] == a[1..] + b;
      StepsConcat(Step(s, a[0]), a[1..], b);
    }
  }

  // ---------------------------------------------------------------- conservation

  function Concat(tokens: seq<string>): string {
    if tokens == [] then "" else Concat(tokens[..|tokens| - 1]) + tokens[|tokens| - 1]
  }

  lemma ConcatSnoc(tokens: seq<string>, t: string)
    ensures Concat(tokens + [t]) == Concat(tokens) + t
  {
    assert (tokens + [t])[..|tokens|] == tokens;
  }

  /** The text without the quotes that open or close and without white space outside quotes. */
  function Kept(text: string, single: bool, double: bool): string
    decreases |text|
  {
    if text == "" then ""
    else if text[0] == '\'' && !double then Kept(text[1..], !single, double)
    else if text[0] == '"' && !single then Kept(text[1..], single, !double)
    else if IsSpace(text[0]) && !single && !double then Kept(text[1..], single, double)
    else [text[0]] + Kept(text[1..], single, double)
  }

  ghost predicate NoneEmpty(tokens: seq<string>) {
    forall i :: 0 <= i < |tokens| ==> tokens[i] != ""
  }

  /** What one character adds to what is kept. */
  function Emitted(s: Scan, c: char): string {
    if (c == '\'' && !s.double) || (c == '"' && !s.single) || (IsSpace(c) && !s.single && !s.double) then "" else [c]
  }

  function All(s: Scan): string {
    Concat(s.tokens) + s.current
  }

  lemma StepEmits(s: Scan, c: char)
    ensures All(Step(s, c)) == All(s) + Emitted(s, c)
  {
    ConcatSnoc(s.tokens, s.current);
  }

  lemma KeptStep(s: Scan, text: string)
    requires text != ""
    ensures var s' := Step(s, text[0]);
      Kept(text, s.single, s.double) == Emitted(s, text[0]) + Kept(text[1..], s'.single, s'.double)
  {
  }

  lemma {:induction false} StepsConserve(s: Scan, text: string)
    requires NoneEmpty(s.tokens)
    ensures var e := Steps(s, text);
      NoneEmpty(e.tokens) && All(e) == All(s) + Kept(text, s.single, s.double)
    decreases |text|
  {
    if text != "" {
      StepEmits(s, text[0]);
      KeptStep(s, text);
      StepsConserve(Step(s, text[0]), text[1..]);
    }
  }

  lemma {:induction false} BlankKeepsNothing(text: string, s: Scan)
    requires forall i :: 0 <= i < |text| ==> IsSpace(text[i])
    requires s == START
    ensures Steps(s, text) == START
    decreases |text|
  {
    if text != "" {
      BlankKeepsNothing(text[1..], s);
    }
  }

  lemma StripEmpty(text: string)
    requires Strip(text) == ""
    ensures forall i :: 0 <= i < |text| ==> IsSpace(text[i])
  {
    LStripSuffix(text);
    RStripPrefix(LStrip(text));
    assert LStrip(text) == "";
  }

  lemma NotBlank(text: string)
    requires text != "" && !IsSpace(text[0])
    ensures Strip(text) != ""
  {
    RStripPrefix(text);
  }

  /** A blank text needs no special case. */
  lemma BlankIsFinished(text: string)
    requires Strip(text) == ""
    ensures Balanced(text) && Finish(Steps(START, text)) == []
  {
    StripEmpty(text);
    BlankKeepsNothing(text, START);
  }

  /** For balanced text the tokens, none of them empty, are exactly what is kept, in order. */
  lemma TokensConserve(text: string)
    requires Balanced(text)
    ensures NoneEmpty(Tokenize(text)) && Concat(Tokenize(text)) == Kept(text, false, false)
  {
    if Strip(text) == "" {
      BlankIsFinished(text);
    }
    StepsConserve(START, text);
    assert All(START) == "";
    var e := Steps(START, text);
    ConcatSnoc(e.tokens, e.current);
    assert Concat(Finish(e)) == All(e);
  }

  // ---------------------------------------------------------------- open quotes

  lemma {:induction false} NoQuoteKeepsOpen(s: Scan, text: string)
    requires (s.single && !s.double && '\'' !in text) || (s.double && !s.single && '"' !in text)
          || (!s.single && !s.double && '\'' !in text && '"' !in text)
    ensures Steps(s, text).single == s.single && Steps(s, text).double == s.double
    decreases |text|
  {
    if text != "" {
      assert text[0] in text && forall c :: c in text[1..] ==> c in text;
      NoQuoteKeepsOpen(Step(s, text[0]), text[1..]);
    }
  }

  /** Text without quotes is balanced; a quote behind balanced text opens, the other
      kind of quote inside it counts for nothing, and the next of its kind closes. */
  lemma BalancedSays(text: string, quote: char, inside: string)
    requires Balanced(text) && (quote == '\'' || quote == '"') && quote !in inside
    ensures Balanced("")
    ensures '\'' !in inside && '"' !in inside ==> Balanced(text + inside)
    ensures !Balanced(text + ([quote] + inside))
    ensures Balanced(text + ([quote] + inside + [quote]))
  {
    var e := Steps(START, text);
    StepsConcat(START, text, inside);
    StepsConcat(START, text, [quote] + inside);
    StepsConcat(START, text, [quote] + inside + [quote]);
    StepsConcat(e, [quote] + inside, [quote]);
    StepsConcat(e, [quote], inside);
    assert [quote][1..] == "";
    NoQuoteKeepsOpen(Step(e, quote), inside);
    if '\'' !in inside && '"' !in inside {
      NoQuoteKeepsOpen(e, inside);
    }
  }

  // ---------------------------------------------------------------- plain text

  lemma {:induction false} QuoteFreeSteps(s: Scan, text: string)
    requires '\'' !in text && '"' !in text && !s.single && !s.double
    ensures var e := Steps(s, text); !e.single && !e.double && Finish(e) == s.tokens + WordsFrom(text, s.current)
    decreases |text|
  {
    if text != "" {
      assert text[0] in text;
      QuoteFreeSteps(Step(s, text[0]), text[1..]);
    }
  }

  /** Text without quotes is split at white space, as unbalanced text is. */
  lemma PlainIsWords(text: string)
    requires ('\'' !in text && '"' !in text) || !Balanced(text)
    ensures Tokenize(text) == Words(text)
  {
    if Strip(text) == "" {
      BlankIsFinished(text);
    }
    if '\'' !in text && '"' !in text {
      QuoteFreeSteps(START, text);
      assert [] + Words(text) == Words(text);
    }
  }

  // ---------------------------------------------------------------- round trip

  /** A token in a quote it does not contain. */
  datatype Quoted = Quoted(token: string, quote: char)

  predicate Proper(q: Quoted) {
    q.token != "" && (q.quote == '\'' || q.quote == '"') && q.quote !in q.token
  }

  function Write(q: Quoted): string {
    [q.quote] + q.token + [q.quote]
  }

  function WriteAll(qs: seq<Quoted>): string {
    if qs == [] then ""
    else if |qs| == 1 then Write(qs[0])
    else Write(qs[0]) + " " + WriteAll(qs[1..])
  }

  function TokensOf(qs: seq<Quoted>): seq<string> {
    if qs == [] then [] else [qs[0].token] + TokensOf(qs[1..])
  }

  lemma {:induction false} InsideQuotes(s: Scan, text: string, quote: char)
    requires (quote == '\'' && s.single && !s.double) || (quote == '"' && s.double && !s.single)
    requires quote !in text
    ensures Steps(s, text) == s.(current := s.current + text)
    decreases |text|
  {
    if text == "" {
      assert s.current + text == s.current;
    } else {
      assert text[0] in text && quote !in text[1..];
      InsideQuotes(Step(s, text[0]), text[1..], quote);
      assert s.current + [text[0]] + text[1..] == s.current + text;
    }
  }

  lemma OneQuoted(tokens: seq<string>, q: Quoted)
    requires Proper(q)
    ensures Steps(Scan(tokens, "", false, false), Write(q)) == Scan(tokens, q.token, false, false)
  {
    var s := Scan(tokens, "", false, false);
    var open := Step(s, q.quote);
    StepsConcat(s, [q.quote] + q.token, [q.quote]);
    StepsConcat(s, [q.quote], q.token);
    assert [q.quote][1..] == "";
    InsideQuotes(open, q.token, q.quote);
    assert "" + q.token == q.token;
  }

  lemma OneQuotedThenSpace(tokens: seq<string>, q: Quoted)
    requires Proper(q)
    ensures Steps(Scan(tokens, "", false, false), Write(q) + " ") == Scan(tokens + [q.token], "", false, false)
  {
    OneQuoted(tokens, q);
    StepsConcat(Scan(tokens, "", false, false), Write(q), " ");
    assert " "[1..] == "";
  }

  lemma {:induction false} QuotedSteps(tokens: seq<string>, qs: seq<Quoted>)
    requires qs != [] && forall i :: 0 <= i < |qs| ==> Proper(qs[i])
    ensures var e := Steps(Scan(tokens, "", false, false), WriteAll(qs));
      !e.single && !e.double && Finish(e) == tokens + TokensOf(qs)
    decreases |qs|
  {
    if |qs| == 1 {
      OneQuoted(tokens, qs[0]);
      assert TokensOf(qs) == [qs[0].token];
    } else {
      QuotedSteps(tokens + [qs[0].token], qs[1..]);
      NextQuoted(tokens, qs);
    }
  }

  lemma NextQuoted(tokens: seq<string>, qs: seq<Quoted>)
    requires |qs| > 1 && Proper(qs[0])
    ensures Steps(Scan(tokens, "", false, false), WriteAll(qs))
         == Steps(Scan(tokens + [qs[0].token], "", false, false), WriteAll(qs[1..]))
    ensures tokens + [qs[0].token] + TokensOf(qs[1..]) == tokens + TokensOf(qs)
  {
    OneQuotedThenSpace(tokens, qs[0]);
    StepsThrough(Scan(tokens, "", false, false), Write(qs[0]) + " ", WriteAll(qs[1..]),
                 Scan(tokens + [qs[0].token], "", false, false));
    TokensMore(tokens, qs);
  }

  lemma StepsThrough(s: Scan, a: string, b: string, middle: Scan)
    requires Steps(s, a) == middle
    ensures Steps(s, a + b) == Steps(middle, b)
  {
    StepsConcat(s, a, b);
  }

  lemma TokensMore(tokens: seq<string>, qs: seq<Quoted>)
    requires qs != []
    ensures tokens + [qs[0].token] + TokensOf(qs[1..]) == tokens + TokensOf(qs)
  {
  }

  lemma FinishedScan(text: string, e: Scan)
    requires Steps(START, text) == e && !e.single && !e.double && text != "" && !IsSpace(text[0])
    ensures Tokenize(text) == Finish(e)
  {
    NotBlank(text);
  }

  lemma StartsWithQuote(qs: seq<Quoted>)
    requires qs != [] && Proper(qs[0])
    ensures WriteAll(qs) != "" && !IsSpace(WriteAll(qs)[0])
  {
    assert WriteAll(qs)[0] == qs[0].quote;
  }

  /** Writing each token in a quote it does not contain, with a space between
      two, and splitting again gives the tokens back. */
  lemma QuotedRoundTrip(qs: seq<Quoted>)
    requires forall i :: 0 <= i < |qs| ==> Proper(qs[i])
    ensures Tokenize(WriteAll(qs)) == TokensOf(qs)
  {
    if qs != [] {
      QuotedSteps([], qs);
      StartsWithQuote(qs);
      FinishedScan(WriteAll(qs), Steps(START, WriteAll(qs)));
      assert [] + TokensOf(qs) == TokensOf(qs);
    }
  }
}

/** Reading a rate limit such as `20/minute`. */
module RateSpec {
  import opened PyText
  import opened Options

  datatype Spec = Spec(limit: int, window: real)

  const DEFAULT := Spec(20, 60.0)

  function LowerChar(c: char): char {
    if 'A' <= c <= 'Z' then (c as int - 'A' as int + 'a' as int) as char else c
  }

  function Lower(s: string): string {
    if s == "" then "" else [LowerChar(s[0])] + Lower(s[1..])
  }

  const SECONDS: set<string> := {"s", "sec", "second"}
  const MINUTES: set<string> := {"m", "min", "minute"}
  const HOURS: set<string> := {"h", "hour"}

  function WindowOf(unit: string): Option<real> {
    if unit in SECONDS then Some(1.0)
    else if unit in MINUTES then Some(60.0)
    else if unit in HOURS then Some(3600.0)
    else None
  }

  predicate IsDigit(c: char) {
    '0' <= c <= '9'
  }

  /** The value of a run of digits; single underscores may stand between digits. */
  function DigitsValue(s: string): Option<nat> {
    if s == "" || !IsDigit(s[|s| - 1]) then None
    else
      var digit := DigitOf(s[|s| - 1]);
      var init := s[..|s| - 1];
      if init == "" then Some(digit)
      else
        TimesTen(DigitsValue(if init[|init| - 1] == '_' then init[..|init| - 1] else init), digit)
  }

  function DigitOf(c: char): nat
    requires IsDigit(c)
  {
    c as int - '0' as int
  }

  function TimesTen(v: Option<nat>, digit: nat): Option<nat> {
    if v.None? then None else Some(v.value * 10 + digit)
  }

  /** `int(s)` for ASCII digits. */
  function IntOf(s: string): Option<int> {
    Signless(Strip(s))
  }

  function Signless(t: string): Option<int> {
    if t != "" && (t[0] == '-' || t[0] == '+') then
      var v := DigitsValue(t[1..]);
      if v.None? then None else (var n: int := v.value; Some(if t[0] == '-' then -n else n))
    else
      var v := DigitsValue(t);
      if v.None? then None else Some(v.value)
  }

  /** Anything that is not `count/unit` means the default. */
  function ParseRateLimit(text: string): (r: Spec)
    ensures r.window in {1.0, 60.0, 3600.0}
  {
    var t := Strip(text);
    var i := IndexOf(t, '/');
    if i == |t| then DEFAULT else SpecOf(IntOf(t[..i]), WindowOf(Lower(t[i + 1..])))
  }

  function SpecOf(count: Option<int>, window: Option<real>): Spec {
    if count.None? || window.None? then DEFAULT else Spec(count.value, window.value)
  }

  // ---------------------------------------------------------------- what is written and what is read

  /** A number in decimal. */
  function Decimal(n: nat): (s: string)
    ensures s != "" && forall i :: 0 <= i < |s| ==> IsDigit(s[i])
  {
    if n < 10 then [('0' as int + n) as char] else Decimal(n / 10) + [('0' as int + n % 10) as char]
  }

  lemma {:induction false} DigitsBack(n: nat)
    ensures DigitsValue(Decimal(n)) == Some(n)
  {
    if n >= 10 {
      DigitsBack(n / 10);
      var s := Decimal(n);
      assert s[..|s| - 1] == Decimal(n / 10);
      assert s[..|s| - 1] != "" && s[..|s| - 1][|s| - 2] != '_';
    }
  }

  /** A digit goes behind a number, with an underscore between or not; nothing else does. */
  lemma GroupsSay(a: string, d: char, c: char)
    requires a != "" && IsDigit(d) && !IsDigit(c)
    ensures a[|a| - 1] != '_' ==> DigitsValue(a + [d]) == TimesTen(DigitsValue(a), DigitOf(d))
    ensures DigitsValue(a + ['_'] + [d]) == TimesTen(DigitsValue(a), DigitOf(d))
    ensures DigitsValue(a + [c]) == None
  {
    OneDigitMore(a, d);
    OneDigitMore(a + ['_'], d);
    assert (a + ['_'])[..|a|] == a;
  }

  lemma DigitsSay(d: char, c: char)
    requires IsDigit(d)
    ensures DigitsValue("") == None && DigitsValue([d]) == Some(DigitOf(d)) && DigitsValue(['_', d]) == None
    ensures !IsDigit(c) ==> DigitsValue([c]) == None
    ensures DigitOf('0') == 0 && DigitOf('9') == 9
  {
    assert ['_', d][..1] == ['_'] && ['_'][..0] == [];
  }

  lemma OneDigitMore(a: string, digit: char)
    requires a != "" && IsDigit(digit)
    ensures DigitsValue(a + [digit]) ==
      TimesTen(DigitsValue(if a[|a| - 1] == '_' then a[..|a| - 1] else a), DigitOf(digit))
  {
    var s := a + [digit];
    assert s[..|s| - 1] == a && s[|s| - 1] == digit;
  }

  /** A sign may stand in front; `m` is the negative of `n`. */
  lemma SignSays(n: nat, m: int)
    requires m + n == 0
    ensures IntOf(Decimal(n)) == Some(n)
    ensures IntOf("-" + Decimal(n)) == Some(m)
    ensures IntOf("+" + Decimal(n)) == Some(n)
  {
    var s := Decimal(n);
    DigitsBack(n);
    DigitIsNoSpace(s[0]);
    DigitIsNoSpace(s[|s| - 1]);
    NothingAround(s);
    Signed('-', s);
    Signed('+', s);
  }

  lemma NoNumber()
    ensures IntOf("") == None && IntOf("-") == None
  {
    SignIsNoSpace('-');
    NothingAround("-");
    assert "-"[1..] == "";
  }

  lemma NothingAround(s: string)
    requires s != "" && !IsSpace(s[0]) && !IsSpace(s[|s| - 1])
    ensures Strip(s) == s
  {
    StripSays("", s, "");
    assert "" + s + "" == s;
  }

  lemma Signed(sign: char, s: string)
    requires (sign == '-' || sign == '+') && s != "" && !IsSpace(s[|s| - 1])
    ensures IntOf([sign] + s) == Negated(DigitsValue(s), sign == '-')
  {
    var t := [sign] + s;
    SignIsNoSpace(sign);
    assert t[0] == sign && t[|t| - 1] == s[|s| - 1];
    NothingAround(t);
    SignTaken(sign, s);
  }

  lemma SignTaken(sign: char, s: string)
    requires sign == '-' || sign == '+'
    ensures Signless([sign] + s) == Negated(DigitsValue(s), sign == '-')
  {
    assert ([sign] + s)[1..] == s;
  }

  function Negated(v: Option<nat>, negative: bool): Option<int> {
    if v.None? then None else (var n: int := v.value; Some(if negative then -n else n))
  }

  lemma SignIsNoSpace(c: char)
    requires c == '-' || c == '+'
    ensures !IsSpace(c)
  {
  }

  lemma LetterIsNoSpace(c: char)
    requires 'a' <= c <= 'z' || 'A' <= c <= 'Z'
    ensures !IsSpace(c)
  {
  }

  lemma DigitIsNoSpace(c: char)
    requires IsDigit(c)
    ensures !IsSpace(c) && c != '/' && c != '-' && c != '+' && c != '_'
  {
  }

  /** The names of a second, a minute and an hour. */
  lemma WindowSays(unit: string)
    ensures WindowOf(unit) == Some(1.0) <==> unit == "s" || unit == "sec" || unit == "second"
    ensures WindowOf(unit) == Some(60.0) <==> unit == "m" || unit == "min" || unit == "minute"
    ensures WindowOf(unit) == Some(3600.0) <==> unit == "h" || unit == "hour"
    ensures WindowOf(unit).Some? ==> WindowOf(unit).value in {1.0, 60.0, 3600.0}
  {
  }

  /** Capitals count as small letters. */
  lemma {:induction false} LowerSays(s: string)
    ensures |Lower(s)| == |s|
    ensures forall i :: 0 <= i < |s| ==>
      Lower(s)[i] as int == s[i] as int + (if 65 <= s[i] as int <= 90 then 32 else 0)
  {
    if s != "" {
      LowerSays(s[1..]);
    }
  }

  /** A count, a slash and the name of a unit in any case, with white space around,
      are read as that count and that window. */
  lemma LimitSays(before: string, n: nat, m: int, unit: string, after: string)
    requires m + n == 0
    requires Blank(before) && Blank(after) && WindowOf(Lower(unit)).Some?
    ensures ParseRateLimit(before + (Decimal(n) + "/" + unit) + after) == Spec(n, WindowOf(Lower(unit)).value)
    ensures ParseRateLimit(before + ("-" + Decimal(n) + "/" + unit) + after) == Spec(m, WindowOf(Lower(unit)).value)
  {
    var s := Decimal(n);
    SignSays(n, m);
    UnitHasNoSpace(unit);
    DigitIsNoSpace(s[0]);
    forall i | 0 <= i < |s| ensures s[i] != '/' {
      DigitIsNoSpace(s[i]);
    }
    ReadsBack(before, s, unit, after);
    ReadsBack(before, "-" + s, unit, after);
  }

  lemma ReadsBack(before: string, count: string, unit: string, after: string)
    requires Blank(before) && Blank(after) && count != "" && !IsSpace(count[0]) && '/' !in count
    requires unit != "" && !IsSpace(unit[|unit| - 1])
    ensures ParseRateLimit(before + (count + "/" + unit) + after) == SpecOf(IntOf(count), WindowOf(Lower(unit)))
  {
    var t := count + "/" + unit;
    assert t[0] == count[0] && t[|t| - 1] == unit[|unit| - 1];
    StripSays(before, t, after);
    IndexOfFirst(count, '/', unit);
    assert count + ['/'] + unit == t;
    assert t[..|count|] == count && t[|count| + 1..] == unit;
  }

  lemma UnitHasNoSpace(unit: string)
    requires WindowOf(Lower(unit)).Some?
    ensures unit != "" && !IsSpace(unit[|unit| - 1])
  {
    EndsInLetter(Lower(unit));
    LastLower(unit);
    WasLetter(unit[|unit| - 1]);
  }

  lemma {:induction false} LastLower(s: string)
    ensures |Lower(s)| == |s|
    ensures s != "" ==> Lower(s)[|s| - 1] == LowerChar(s[|s| - 1])
  {
    if s != "" {
      LastLower(s[1..]);
    }
  }

  lemma WasLetter(c: char)
    requires 'a' <= LowerChar(c) <= 'z'
    ensures !IsSpace(c)
  {
    LetterIsNoSpace(c);
  }

  lemma EndsInLetter(unit: string)
    requires WindowOf(unit).Some?
    ensures unit != "" && 'a' <= unit[|unit| - 1] <= 'z'
  {
    if unit in SECONDS {
      assert unit == "s" || unit == "sec" || unit == "second";
    } else if unit in MINUTES {
      assert unit == "m" || unit == "min" || unit == "minute";
    } else {
      assert unit == "h" || unit == "hour";
    }
  }

  /** Without a slash, a number in front of it or a unit behind it, it is 20 a minute. */
  lemma DefaultSays(text: string, count: string, unit: string)
    ensures '/' !in Strip(text) ==> ParseRateLimit(text) == Spec(20, 60.0)
    ensures var bad := IntOf(count) == None || WindowOf(Lower(unit)) == None;
      Strip(text) == count + "/" + unit && '/' !in count && bad ==> ParseRateLimit(text) == Spec(20, 60.0)
  {
    IndexSays(Strip(text), '/');
    if '/' !in count && Strip(text) == count + "/" + unit {
      var t := count + "/" + unit;
      IndexOfFirst(count, '/', unit);
      assert count + ['/'] + unit == t;
      assert t[..|count|] == count && t[|count| + 1..] == unit;
    }
  }
}

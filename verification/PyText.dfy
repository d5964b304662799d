/** The string operations the kernels share, as Python defines them. */
module PyText {

  /** `str.isspace` of one character. */
  predicate IsSpace(c: char) {
    || '\t' <= c <= '\r' || '\U{1C}' <= c <= ' ' || c == '\U{85}' || c == '\U{A0}' || c == '\U{1680}'
    || '\U{2000}' <= c <= '\U{200A}' || c == '\U{2028}' || c == '\U{2029}' || c == '\U{202F}'
    || c == '\U{205F}' || c == '\U{3000}'
  }

  function LStrip(s: string): string {
    if s != "" && IsSpace(s[0]) then LStrip(s[1..]) else s
  }

  function RStrip(s: string): string {
    if s != "" && IsSpace(s[|s| - 1]) then RStrip(s[..|s| - 1]) else s
  }

  function Strip(s: string): string {
    RStrip(LStrip(s))
  }

  /** The first position of `c`, or the length. */
  function IndexOf(s: string, c: char): (i: nat)
    ensures i <= |s|
  {
    if s == "" || s[0] == c then 0 else 1 + IndexOf(s[1..], c)
  }

  lemma {:induction false} IndexOfFirst(a: string, c: char, b: string)
    requires c !in a
    ensures IndexOf(a + [c] + b, c) == |a|
  {
    if a != "" {
      assert (a + [c] + b)[1..] == a[1..] + [c] + b;
      IndexOfFirst(a[1..], c, b);
    }
  }

  /** `s.split(c)`. */
  function SplitOn(s: string, c: char): seq<string>
    decreases |s|
  {
    var i := IndexOf(s, c);
    if i == |s| then [s] else [s[..i]] + SplitOn(s[i + 1..], c)
  }

  function Join(parts: seq<string>, c: char): string {
    if parts == [] then ""
    else if |parts| == 1 then parts[0]
    else parts[0] + [c] + Join(parts[1..], c)
  }

  lemma {:induction false} NoSplit(s: string, c: char)
    requires c !in s
    ensures IndexOf(s, c) == |s|
  {
    if s != "" {
      NoSplit(s[1..], c);
    }
  }

  lemma {:induction false} SplitJoin(parts: seq<string>, c: char)
    requires parts != [] && forall p :: p in parts ==> c !in p
    ensures SplitOn(Join(parts, c), c) == parts
  {
    assert parts[0] in parts;
    if |parts| == 1 {
      NoSplit(parts[0], c);
    } else {
      var rest := Join(parts[1..], c);
      IndexOfFirst(parts[0], c, rest);
      SplitJoin(parts[1..], c);
      var s := parts[0] + [c] + rest;
      assert s[..|parts[0]|] == parts[0] && s[|parts[0]| + 1..] == rest;
      assert SplitOn(s, c) == [parts[0]] + SplitOn(rest, c);
    }
  }

  /** `s.split()`, with the word that is being read. */
  function WordsFrom(s: string, word: string): seq<string>
    decreases |s|
  {
    if s == "" then (if word == "" then [] else [word])
    else if IsSpace(s[0]) then (if word == "" then [] else [word]) + WordsFrom(s[1..], "")
    else WordsFrom(s[1..], word + [s[0]])
  }

  function Words(s: string): seq<string> {
    WordsFrom(s, "")
  }

  lemma {:induction false} LStripSuffix(s: string)
    ensures |LStrip(s)| <= |s| && LStrip(s) == s[|s| - |LStrip(s)|..]
    ensures forall i :: 0 <= i < |s| - |LStrip(s)| ==> IsSpace(s[i])
    ensures LStrip(s) != "" ==> !IsSpace(LStrip(s)[0])
  {
    if s != "" && IsSpace(s[0]) {
      LStripSuffix(s[1..]);
      var k := |s[1..]| - |LStrip(s)|;
      assert s[1..][k..] == s[k + 1..];
      assert forall i :: 0 < i < k + 1 ==> s[i] == s[1..][i - 1];
    }
  }

  lemma {:induction false} RStripPrefix(s: string)
    ensures |RStrip(s)| <= |s| && RStrip(s) == s[..|RStrip(s)|]
    ensures forall i :: |RStrip(s)| <= i < |s| ==> IsSpace(s[i])
    ensures RStrip(s) != "" ==> !IsSpace(RStrip(s)[|RStrip(s)| - 1])
  {
    if s != "" && IsSpace(s[|s| - 1]) {
      RStripPrefix(s[..|s| - 1]);
    }
  }

  predicate Blank(s: string) {
    forall i :: 0 <= i < |s| ==> IsSpace(s[i])
  }

  lemma {:induction false} LStripBlank(blank: string, s: string)
    requires Blank(blank) && (s == "" || !IsSpace(s[0]))
    ensures LStrip(blank + s) == s
  {
    if blank == "" {
      assert blank + s == s;
    } else {
      assert (blank + s)[1..] == blank[1..] + s;
      LStripBlank(blank[1..], s);
    }
  }

  lemma {:induction false} RStripBlank(s: string, blank: string)
    requires Blank(blank) && (s == "" || !IsSpace(s[|s| - 1]))
    ensures RStrip(s + blank) == s
  {
    if blank == "" {
      assert s + blank == s;
    } else {
      assert (s + blank)[..|s + blank| - 1] == s + blank[..|blank| - 1];
      RStripBlank(s, blank[..|blank| - 1]);
    }
  }

  /** Stripping takes the white space around a text that has none at its ends. */
  lemma StripSays(before: string, s: string, after: string)
    requires Blank(before) && Blank(after) && s != "" && !IsSpace(s[0]) && !IsSpace(s[|s| - 1])
    ensures Strip(before + s + after) == s && Strip(before) == ""
  {
    assert before + s + after == before + (s + after);
    LStripBlank(before, s + after);
    RStripBlank(s, after);
    LStripBlank(before, "");
    assert before + "" == before;
  }

  lemma {:induction false} WordGrows(word: string, w: string, rest: string)
    requires forall i :: 0 <= i < |w| ==> !IsSpace(w[i])
    ensures WordsFrom(w + rest, word) == WordsFrom(rest, word + w)
    decreases |w|
  {
    if w == "" {
      assert w + rest == rest && word + w == word;
    } else {
      assert (w + rest)[1..] == w[1..] + rest;
      WordGrows(word + [w[0]], w[1..], rest);
      assert word + [w[0]] + w[1..] == word + w;
    }
  }

  lemma {:induction false} BlankHasNoWords(blank: string, rest: string)
    requires Blank(blank)
    ensures Words(blank + rest) == Words(rest)
    decreases |blank|
  {
    if blank == "" {
      assert blank + rest == rest;
    } else {
      assert (blank + rest)[1..] == blank[1..] + rest;
      BlankHasNoWords(blank[1..], rest);
      assert [] + Words(rest) == Words(rest);
    }
  }

  /** The words of a text are the runs without white space, in order. */
  lemma WordsSay(blank: string, w: string, rest: string)
    requires Blank(blank) && w != "" && (forall i :: 0 <= i < |w| ==> !IsSpace(w[i]))
    requires rest == "" || IsSpace(rest[0])
    ensures Words(blank + w + rest) == [w] + Words(rest) && Words(blank) == []
  {
    assert blank + w + rest == blank + (w + rest);
    BlankHasNoWords(blank, w + rest);
    WordGrows("", w, rest);
    assert "" + w == w;
    BlankHasNoWords(blank, "");
    assert blank + "" == blank;
    if rest != "" {
      assert WordsFrom(rest, w) == [w] + WordsFrom(rest[1..], "");
      assert [] + WordsFrom(rest[1..], "") == WordsFrom(rest[1..], "");
    }
  }

  /** White space is one of these characters. */
  lemma SpaceSays(c: char)
    ensures IsSpace(c) <==> c as int in {9, 10, 11, 12, 13, 28, 29, 30, 31, 32, 133, 160, 5760, 8192, 8193, 8194,
      8195, 8196, 8197, 8198, 8199, 8200, 8201, 8202, 8232, 8233, 8239, 8287, 12288}
  {
  }

  /** The first position of a character that a text contains. */
  lemma {:induction false} IndexSays(s: string, c: char)
    ensures var i := IndexOf(s, c);
      && (i < |s| ==> s[i] == c) && (forall j :: 0 <= j < i ==> s[j] != c) && (i == |s| <==> c !in s)
  {
    if s != "" && s[0] != c {
      IndexSays(s[1..], c);
      forall j | 0 <= j < IndexOf(s, c) ensures s[j] != c {
        assert j > 0 ==> s[j] == s[1..][j - 1];
      }
      assert c in s <==> c in s[1..];
    }
  }

  /** Joining puts the separator between any two parts. */
  lemma {:induction false} JoinSays(parts: seq<string>, last: string, c: char)
    ensures Join([], c) == "" && Join([last], c) == last
    ensures parts != [] ==> Join(parts + [last], c) == Join(parts, c) + [c] + last
  {
    if |parts| == 1 {
      assert (parts + [last])[1..] == [last];
    } else if |parts| > 1 {
      assert (parts + [last])[1..] == parts[1..] + [last];
      JoinSays(parts[1..], last, c);
    }
  }
}

/** The OneBot 11 message string format: text and `[CQ:kind,key=value,...]` codes,
    with `&`, `[`, `]` and, inside values, `,` written as entities. */
module CqCode {
  import opened PyText
  import opened Options

  datatype Segment = Segment(kind: string, data: map<string, string>)

  /** Inside the framework the account of an `at` segment is its `user_id`. */
  function Normalize(s: Segment): Segment {
    if s.kind != "at" then s
    else s.(data := s.data["user_id" := AtTarget(s.data)])
  }

  function AtTarget(data: map<string, string>): string {
    if "user_id" in data && data["user_id"] != "" then data["user_id"]
    else if "qq" in data then data["qq"]
    else ""
  }

  // ---------------------------------------------------------------- parsing

  /** `s.replace(pattern, sub)`. */
  function ReplaceAll(s: string, pattern: string, sub: string): string
    requires pattern != ""
    decreases |s|
  {
    if |s| < |pattern| then s
    else if s[..|pattern|] == pattern then sub + ReplaceAll(s[|pattern|..], pattern, sub)
    else [s[0]] + ReplaceAll(s[1..], pattern, sub)
  }

  function Unescape(s: string): string {
    ReplaceAll(ReplaceAll(ReplaceAll(ReplaceAll(s, "&#91;", "["), "&#93;", "]"), "&#44;", ","), "&amp;", "&")
  }

  predicate KindChar(c: char) {
    'a' <= c <= 'z' || 'A' <= c <= 'Z' || '0' <= c <= '9' || c == '_' || c == '-'
  }

  function KindLength(s: string): (n: nat)
    ensures n <= |s|
  {
    if s != "" && KindChar(s[0]) then 1 + KindLength(s[1..]) else 0
  }

  /** A match of the code pattern at the start of a string. */
  datatype Code = Code(kind: string, body: string, size: nat)

  function Head(s: string): (c: Option<Code>)
    ensures c.Some? ==> 0 < c.value.size <= |s|
  {
    if |s| < 4 || s[0] != '[' || s[1] != 'C' || s[2] != 'Q' || s[3] != ':' then None
    else
      var n := KindLength(s[4..]);
      if n == 0 || 4 + n >= |s| || s[4 + n] != ',' then None
      else
        var rest := s[5 + n..];
        var b := IndexOf(rest, ']');
        if b == 0 || b == |rest| then None else Some(Code(s[4..4 + n], rest[..b], n + b + 6))
  }

  /** The first code of a string, what is in front of it and what follows. */
  datatype Found = Found(before: string, code: Code, after: string)

  function FindCode(s: string): (f: Option<Found>)
    ensures f.Some? ==> |f.value.after| < |s|
  {
    if s == "" then None
    else
      var c := Head(s);
      if c.Some? then Some(Found("", c.value, s[c.value.size..]))
      else
        var f := FindCode(s[1..]);
        if f.None? then None else Some(f.value.(before := [s[0]] + f.value.before))
  }

  /** A part without `=` is skipped; a repeated key keeps its last value. */
  function Put(data: map<string, string>, part: string): map<string, string> {
    var i := IndexOf(part, '=');
    if i == |part| then data else data[Strip(part[..i]) := Unescape(Strip(part[i + 1..]))]
  }

  function Fields(parts: seq<string>): map<string, string> {
    if parts == [] then map[] else Put(Fields(parts[..|parts| - 1]), parts[|parts| - 1])
  }

  /** The text cut at its codes: stretches between them, which are never empty, and matches. */
  datatype Cut = Stretch(text: string) | Match(kind: string, body: string)

  function Between(s: string): seq<Cut> {
    if s == "" then [] else [Stretch(s)]
  }

  function Scan(s: string): seq<Cut>
    decreases |s|
  {
    var f := FindCode(s);
    if f.None? then Between(s)
    else Between(f.value.before) + [Match(f.value.code.kind, f.value.code.body)] + Scan(f.value.after)
  }

  function Read(c: Cut): Segment {
    match c
    case Stretch(text) => Segment("text", map["text" := Unescape(text)])
    case Match(kind, body) => Normalize(Segment(kind, Fields(SplitOn(body, ','))))
  }

  function ReadAll(cuts: seq<Cut>): seq<Segment> {
    if cuts == [] then [] else ReadAll(cuts[..|cuts| - 1]) + [Read(cuts[|cuts| - 1])]
  }

  function Parse(s: string): seq<Segment> {
    ReadAll(Scan(s))
  }

  /** The code lies between what is in front of it and what follows. */
  lemma {:induction false} FoundWhere(s: string, f: Found)
    requires FindCode(s) == Some(f)
    ensures |f.before| + f.code.size <= |s|
    ensures f.before == s[..|f.before|] && f.after == s[|f.before| + f.code.size..]
    ensures Head(s[|f.before|..]) == Some(f.code)
  {
    if Head(s).None? {
      var g := FindCode(s[1..]).value;
      FoundWhere(s[1..], g);
      FoundShift(s, f, g);
    } else {
      assert s[0..] == s;
    }
  }

  lemma FoundShift(s: string, f: Found, g: Found)
    requires s != "" && f.before == [s[0]] + g.before && f.code == g.code && f.after == g.after
    requires |g.before| + g.code.size <= |s[1..]| && g.code.size > 0
    requires g.before == s[1..][..|g.before|] && g.after == s[1..][|g.before| + g.code.size..]
    requires Head(s[1..][|g.before|..]) == Some(g.code)
    ensures |f.before| + f.code.size <= |s|
    ensures f.before == s[..|f.before|] && f.after == s[|f.before| + f.code.size..]
    ensures Head(s[|f.before|..]) == Some(f.code)
  {
    Shift(s, |g.before|);
    ShiftRest(s, |g.before| + g.code.size);
  }

  lemma ShiftRest(s: string, k: nat)
    requires s != "" && k <= |s| - 1
    ensures s[1..][k..] == s[k + 1..]
  {
  }

  lemma Shift(s: string, k: nat)
    requires k < |s|
    ensures s[1..][k..] == s[k + 1..] && s[..k + 1] == [s[0]] + s[1..][..k]
  {
  }

  lemma Regroup<T>(a: seq<T>, b: seq<T>, c: seq<T>, d: seq<T>)
    ensures a + (b + c + d) == a + b + c + d
  {
  }

  lemma ReadOne(cuts: seq<Cut>, c: Cut)
    ensures ReadAll(cuts + [c]) == ReadAll(cuts) + [Read(c)]
  {
    assert (cuts + [c])[..|cuts|] == cuts;
  }

  /** What is left of the scan once the first code is read. */
  lemma Advance(s: string, f: Found, cuts: seq<Cut>, more: seq<Cut>, whole: seq<Cut>) returns (tail: seq<Cut>)
    requires FindCode(s) == Some(f) && whole == cuts + Scan(s)
    requires more == cuts + Between(f.before) + [Match(f.code.kind, f.code.body)]
    ensures tail == Scan(f.after) && whole == more + tail
  {
    tail := Scan(f.after);
    Regroup(cuts, Between(f.before), [Match(f.code.kind, f.code.body)], tail);
  }

  lemma FoundInText(text: string, pos: nat, s: string, f: Found)
    requires pos <= |text| && s == text[pos..] && FindCode(s) == Some(f)
    ensures 0 < f.code.size && pos + |f.before| + f.code.size <= |text|
    ensures text[pos..pos + |f.before|] == f.before && text[pos + |f.before| + f.code.size..] == f.after
  {
    FoundWhere(s, f);
  }

  /** One pass over the matches, with the end of the last one in `pos`. */
  method ParseCq(text: string) returns (segments: seq<Segment>)
    ensures segments == Parse(text)
  {
    segments := [];
    ghost var cuts, tail, whole := [], Scan(text), Scan(text);
    var pos := 0;
    var rest := text;
    var next := FindCode(rest);
    while next.Some?
      invariant pos <= |text| && rest == text[pos..] && next == FindCode(rest)
      invariant tail == Scan(rest) && whole == cuts + tail && segments == ReadAll(cuts)
      decreases |text| - pos
    {
      var before, after, end := StepOver(text, pos, rest, next.value);
      ghost var more;
      segments, more := AddCode(segments, cuts, before, next.value.code);
      tail := Advance(rest, next.value, cuts, more, whole);
      cuts, pos, rest := more, end, after;
      next := FindCode(rest);
    }
    segments := AddText(segments, cuts, rest);
  }

  /** The text in front of a match, the text behind it, and where that starts. */
  method StepOver(text: string, pos: nat, rest: string, f: Found) returns (before: string, after: string, end: nat)
    requires pos <= |text| && rest == text[pos..] && FindCode(rest) == Some(f)
    ensures before == f.before && after == f.after
    ensures pos < end <= |text| && after == text[end..]
  {
    FoundInText(text, pos, rest, f);
    var start := pos + |f.before|;
    end := start + f.code.size;
    before, after := text[pos..start], text[end..];
  }

  method AddText(segments: seq<Segment>, ghost cuts: seq<Cut>, text: string) returns (r: seq<Segment>)
    requires segments == ReadAll(cuts)
    ensures r == ReadAll(cuts + Between(text))
  {
    r := segments;
    if |text| > 0 {
      ReadOne(cuts, Stretch(text));
      r := r + [Segment("text", map["text" := Unescape(text)])];
    } else {
      assert cuts + [] == cuts;
    }
  }

  method AddCode(segments: seq<Segment>, ghost cuts: seq<Cut>, before: string, code: Code)
      returns (r: seq<Segment>, ghost more: seq<Cut>)
    requires segments == ReadAll(cuts)
    ensures more == cuts + Between(before) + [Match(code.kind, code.body)]
    ensures r == ReadAll(more)
  {
    r := AddText(segments, cuts, before);
    var data := ReadFields(code.body);
    ReadOne(cuts + Between(before), Match(code.kind, code.body));
    r := r + [Normalize(Segment(code.kind, data))];
    more := cuts + Between(before) + [Match(code.kind, code.body)];
  }

  method ReadFields(body: string) returns (data: map<string, string>)
    ensures data == Fields(SplitOn(body, ','))
  {
    var parts := SplitOn(body, ',');
    data := map[];
    for k := 0 to |parts|
      invariant data == Fields(parts[..k])
    {
      assert parts[..k + 1][..k] == parts[..k];
      data := Put(data, parts[k]);
    }
    assert parts[..|parts|] == parts;
  }

  // ---------------------------------------------------------------- printing

  const IN_TEXT := {'&', '[', ']'}
  const IN_VALUE := {'&', '[', ']', ','}

  function Entity(c: char): string {
    if c == '[' then "&#91;" else if c == ']' then "&#93;" else if c == ',' then "&#44;" else "&amp;"
  }

  function Encode(specials: set<char>, s: string): string {
    if s == "" then "" else EncodeChar(specials, s[0]) + Encode(specials, s[1..])
  }

  function EncodeChar(specials: set<char>, c: char): string {
    if c in specials then Entity(c) else [c]
  }

  /** What a sender writes: text, or a code with its parameters in order. */
  datatype Piece = Text(text: string) | Cq(kind: string, params: seq<(string, string)>)

  function Param(p: (string, string)): string {
    p.0 + "=" + Encode(IN_VALUE, p.1)
  }

  function Params(ps: seq<(string, string)>): seq<string> {
    seq(|ps|, i requires 0 <= i < |ps| => Param(ps[i]))
  }

  function PrintPiece(p: Piece): string {
    match p
    case Text(text) => Encode(IN_TEXT, text)
    case Cq(kind, params) => "[CQ:" + kind + "," + Join(Params(params), ',') + "]"
  }

  function Print(pieces: seq<Piece>): string {
    if pieces == [] then "" else PrintPiece(pieces[0]) + Print(pieces[1..])
  }

  /** A kind of the format's letters, at least one parameter, and no `,`, `=` or
      `]` in a key; text and values are unrestricted. */
  predicate Printable(p: Piece) {
    match p
    case Text(_) => true
    case Cq(kind, params) =>
      && kind != "" && (forall i :: 0 <= i < |kind| ==> KindChar(kind[i]))
      && params != [] && forall i :: 0 <= i < |params| ==> CleanKey(params[i].0)
  }

  predicate CleanKey(key: string) {
    ',' !in key && '=' !in key && ']' !in key
  }

  function ParamMap(ps: seq<(string, string)>): map<string, string> {
    if ps == [] then map[]
    else ParamMap(ps[..|ps| - 1])[Strip(ps[|ps| - 1].0) := Strip(ps[|ps| - 1].1)]
  }

  /** The message the pieces mean: runs of text are one segment, empty ones none. */
  function Meaning(pending: string, pieces: seq<Piece>): seq<Segment>
    decreases |pieces|
  {
    if pieces == [] then Plain(pending)
    else
      match pieces[0]
      case Text(text) => Meaning(pending + text, pieces[1..])
      case Cq(kind, params) =>
        Plain(pending) + [Normalize(Segment(kind, ParamMap(params)))] + Meaning("", pieces[1..])
  }

  function Plain(text: string): seq<Segment> {
    if text == "" then [] else [Segment("text", map["text" := text])]
  }

  // ---------------------------------------------------------------- entities

  lemma SkipOne(c: char, rest: string, pattern: string, sub: string)
    requires c != '&' && pattern != "" && pattern[0] == '&'
    ensures ReplaceAll([c] + rest, pattern, sub) == [c] + ReplaceAll(rest, pattern, sub)
  {
    var s := [c] + rest;
    assert s[1..] == rest;
    assert |s| >= |pattern| ==> s[..|pattern|][0] != pattern[0];
  }

  lemma {:induction false} Skip(w: string, rest: string, pattern: string, sub: string)
    requires '&' !in w && pattern != "" && pattern[0] == '&'
    ensures ReplaceAll(w + rest, pattern, sub) == w + ReplaceAll(rest, pattern, sub)
  {
    if w == "" {
      assert w + rest == rest;
    } else {
      Skip(w[1..], rest, pattern, sub);
      SkipOne(w[0], w[1..] + rest, pattern, sub);
      assert w + rest == [w[0]] + (w[1..] + rest);
      assert w == [w[0]] + w[1..];
    }
  }

  lemma EntityShape(c: char)
    ensures |Entity(c)| == 5 && Entity(c)[0] == '&' && '&' !in Entity(c)[1..]
  {
  }

  lemma EntitiesDiffer(c: char, d: char)
    requires c in IN_VALUE && d in IN_VALUE && c != d
    ensures Entity(c) != Entity(d)
  {
    assert Entity('[')[3] == '1' && Entity(']')[3] == '3' && Entity(',')[3] == '4' && Entity('&')[3] == 'p';
  }

  /** An entity other than the pattern is passed over. */
  lemma PassOver(entity: string, rest: string, pattern: string, sub: string)
    requires |entity| == |pattern| && entity != pattern && pattern != "" && pattern[0] == '&'
    requires '&' !in entity[1..]
    ensures ReplaceAll(entity + rest, pattern, sub) == entity + ReplaceAll(rest, pattern, sub)
  {
    var s := entity + rest;
    assert s[..|entity|] == entity && s[1..] == entity[1..] + rest;
    Skip(entity[1..], rest, pattern, sub);
    var r := ReplaceAll(rest, pattern, sub);
    assert [entity[0]] + (entity[1..] + r) == entity + r;
  }

  lemma SkipEntity(c: char, d: char, rest: string)
    requires c in IN_VALUE && d in IN_VALUE && c != d
    ensures ReplaceAll(Entity(d) + rest, Entity(c), [c]) == Entity(d) + ReplaceAll(rest, Entity(c), [c])
  {
    EntityShape(c);
    EntityShape(d);
    EntitiesDiffer(c, d);
    PassOver(Entity(d), rest, Entity(c), [c]);
  }

  /** Replacing one entity decodes one character, as long as the ampersand is
      still encoded or is the last. */
  lemma {:induction false} ReplaceDecodes(specials: set<char>, c: char, s: string)
    requires '&' in specials && specials <= IN_VALUE && c in IN_VALUE && (c == '&' ==> specials == {'&'})
    ensures ReplaceAll(Encode(specials, s), Entity(c), [c]) == Encode(specials - {c}, s)
  {
    if s != "" {
      var x, rest := s[0], Encode(specials, s[1..]);
      ReplaceDecodes(specials, c, s[1..]);
      if x !in specials {
        Skip([x], rest, Entity(c), [c]);
      } else if x != c {
        SkipEntity(c, x, rest);
      } else {
        assert (Entity(c) + rest)[..5] == Entity(c) && (Entity(c) + rest)[5..] == rest;
      }
    }
  }

  lemma {:induction false} EncodeNothing(s: string)
    ensures Encode({}, s) == s
  {
    if s != "" {
      EncodeNothing(s[1..]);
    }
  }

  /** The four replacements in a row undo the escaping of text and of values. */
  lemma UnescapeEncode(specials: set<char>, s: string)
    requires '&' in specials && specials <= IN_VALUE
    ensures Unescape(Encode(specials, s)) == s
  {
    ReplaceDecodes(specials, '[', s);
    ReplaceDecodes(specials - {'['}, ']', s);
    ReplaceDecodes(specials - {'['} - {']'}, ',', s);
    assert specials - {'['} - {']'} - {','} == {'&'};
    ReplaceDecodes({'&'}, '&', s);
    assert {'&'} - {'&'} == {};
    EncodeNothing(s);
  }

  lemma {:induction false} EncodeConcat(specials: set<char>, a: string, b: string)
    ensures Encode(specials, a + b) == Encode(specials, a) + Encode(specials, b)
  {
    if a == "" {
      assert a + b == b;
    } else {
      assert (a + b)[1..] == a[1..] + b;
      EncodeConcat(specials, a[1..], b);
    }
  }

  lemma {:induction false} EncodeHides(specials: set<char>, s: string, c: char)
    requires specials <= IN_VALUE && c in specials && c != '&'
    ensures c !in Encode(specials, s)
  {
    if s != "" {
      EncodeHides(specials, s[1..], c);
      assert c !in EncodeChar(specials, s[0]);
    }
  }

  lemma {:induction false} LStripEncode(specials: set<char>, s: string)
    requires specials <= IN_VALUE
    ensures LStrip(Encode(specials, s)) == Encode(specials, LStrip(s))
  {
    if s != "" {
      var rest := Encode(specials, s[1..]);
      assert Encode(specials, s)[0] == EncodeChar(specials, s[0])[0];
      if IsSpace(s[0]) {
        LStripEncode(specials, s[1..]);
        assert ([s[0]] + rest)[1..] == rest;
      }
    }
  }

  lemma EncodeSnoc(specials: set<char>, s: string, c: char)
    ensures Encode(specials, s + [c]) == Encode(specials, s) + EncodeChar(specials, c)
  {
    EncodeConcat(specials, s, [c]);
    assert [c][1..] == "";
  }

  lemma RStripSnoc(s: string, c: char)
    ensures RStrip(s + [c]) == if IsSpace(c) then RStrip(s) else s + [c]
  {
    assert (s + [c])[..|s|] == s;
  }

  lemma EntityEnds(specials: set<char>, s: string, c: char)
    requires specials <= IN_VALUE && !IsSpace(c)
    ensures RStrip(s + EncodeChar(specials, c)) == s + EncodeChar(specials, c)
  {
    var e := EncodeChar(specials, c);
    RStripSnoc(s + e[..|e| - 1], e[|e| - 1]);
    assert s + e[..|e| - 1] + [e[|e| - 1]] == s + e;
  }

  lemma {:induction false} RStripEncode(specials: set<char>, s: string)
    requires specials <= IN_VALUE
    ensures RStrip(Encode(specials, s)) == Encode(specials, RStrip(s))
  {
    if s != "" {
      var init, last := s[..|s| - 1], s[|s| - 1];
      assert s == init + [last];
      EncodeSnoc(specials, init, last);
      RStripSnoc(init, last);
      if IsSpace(last) {
        RStripEncode(specials, init);
        RStripSnoc(Encode(specials, init), last);
      } else {
        EntityEnds(specials, Encode(specials, init), last);
      }
    }
  }

  lemma StripEncode(specials: set<char>, s: string)
    requires specials <= IN_VALUE
    ensures Strip(Encode(specials, s)) == Encode(specials, Strip(s))
  {
    LStripEncode(specials, s);
    RStripEncode(specials, LStrip(s));
  }

  // ---------------------------------------------------------------- codes

  /** A stretch without an opening bracket holds no start of a code. */
  lemma {:induction false} FindAfter(w: string, rest: string)
    requires '[' !in w
    ensures var f := FindCode(rest);
      FindCode(w + rest) == if f.None? then None else Some(f.value.(before := w + f.value.before))
  {
    var f := FindCode(rest);
    if w == "" {
      assert w + rest == rest;
      assert f.Some? ==> w + f.value.before == f.value.before;
    } else {
      var s := w + rest;
      assert s[0] == w[0] && s[1..] == w[1..] + rest;
      FindAfter(w[1..], rest);
      assert f.Some? ==> [s[0]] + (w[1..] + f.value.before) == w + f.value.before;
    }
  }

  lemma {:induction false} KindLengthOf(kind: string, rest: string)
    requires forall i :: 0 <= i < |kind| ==> KindChar(kind[i])
    ensures KindLength(kind + "," + rest) == |kind|
  {
    if kind != "" {
      assert (kind + "," + rest)[1..] == kind[1..] + "," + rest;
      KindLengthOf(kind[1..], rest);
    }
  }

  lemma HeadOfCode(kind: string, body: string, rest: string)
    requires kind != "" && (forall i :: 0 <= i < |kind| ==> KindChar(kind[i])) && body != "" && ']' !in body
    ensures var s := "[CQ:" + kind + "," + body + "]" + rest;
      Head(s) == Some(Code(kind, body, |kind| + |body| + 6))
  {
    var s := "[CQ:" + kind + "," + body + "]" + rest;
    assert s[4..] == kind + "," + (body + "]" + rest);
    KindLengthOf(kind, body + "]" + rest);
    assert s[5 + |kind|..] == body + [']'] + rest;
    IndexOfFirst(body, ']', rest);
    assert s[4..4 + |kind|] == kind;
    assert (body + [']'] + rest)[..|body|] == body;
  }

  lemma {:induction false} JoinHides(parts: seq<string>, c: char)
    requires c != ',' && forall p :: p in parts ==> c !in p
    ensures c !in Join(parts, ',')
  {
    if |parts| == 1 {
      assert parts[0] in parts;
    } else if |parts| > 1 {
      assert parts[0] in parts;
      JoinHides(parts[1..], c);
    }
  }

  lemma ParamHides(p: (string, string))
    requires CleanKey(p.0)
    ensures ',' !in Param(p) && ']' !in Param(p)
  {
    EncodeHides(IN_VALUE, p.1, ',');
    EncodeHides(IN_VALUE, p.1, ']');
  }

  lemma BodyOf(params: seq<(string, string)>)
    requires params != [] && forall i :: 0 <= i < |params| ==> CleanKey(params[i].0)
    ensures var body := Join(Params(params), ',');
      body != "" && ']' !in body && SplitOn(body, ',') == Params(params)
  {
    var parts := Params(params);
    forall p | p in parts ensures ',' !in p && ']' !in p {
      var i :| 0 <= i < |parts| && parts[i] == p;
      ParamHides(params[i]);
    }
    SplitJoin(parts, ',');
    JoinHides(parts, ']');
    assert parts[0] == Param(params[0]);
  }

  lemma PutParam(data: map<string, string>, p: (string, string))
    requires CleanKey(p.0)
    ensures Put(data, Param(p)) == data[Strip(p.0) := Strip(p.1)]
  {
    var value := Encode(IN_VALUE, p.1);
    assert Param(p) == p.0 + ['='] + value;
    IndexOfFirst(p.0, '=', value);
    assert Param(p)[..|p.0|] == p.0 && Param(p)[|p.0| + 1..] == value;
    StripEncode(IN_VALUE, p.1);
    UnescapeEncode(IN_VALUE, Strip(p.1));
  }

  /** Reading the printed parameters gives the map they stand for. */
  lemma {:induction false} FieldsOfParams(params: seq<(string, string)>)
    requires forall i :: 0 <= i < |params| ==> CleanKey(params[i].0)
    ensures Fields(Params(params)) == ParamMap(params)
  {
    if params != [] {
      var init, last := params[..|params| - 1], params[|params| - 1];
      FieldsOfParams(init);
      assert Params(params)[..|params| - 1] == Params(init);
      PutParam(ParamMap(init), last);
    }
  }

  // ---------------------------------------------------------------- the round trip

  /** The cuts of a printed message. */
  function Cuts(pending: string, pieces: seq<Piece>): seq<Cut>
    decreases |pieces|
  {
    if pieces == [] then Between(Encode(IN_TEXT, pending))
    else
      match pieces[0]
      case Text(text) => Cuts(pending + text, pieces[1..])
      case Cq(kind, params) =>
        Between(Encode(IN_TEXT, pending)) + [Match(kind, Join(Params(params), ','))] + Cuts("", pieces[1..])
  }

  lemma ScanCode(w: string, code: string, c: Code, rest: string)
    requires '[' !in w && code != "" && Head(code) == Some(c) && code[c.size..] == rest
    ensures Scan(w + code) == Between(w) + [Match(c.kind, c.body)] + Scan(rest)
  {
    FindAfter(w, code);
    assert w + "" == w;
  }

  lemma ScanPiece(w: string, kind: string, params: seq<(string, string)>, rest: string)
    requires '[' !in w && Printable(Cq(kind, params))
    ensures Scan(w + (PrintPiece(Cq(kind, params)) + rest))
         == Between(w) + [Match(kind, Join(Params(params), ','))] + Scan(rest)
  {
    var body := Join(Params(params), ',');
    var code := PrintPiece(Cq(kind, params)) + rest;
    BodyOf(params);
    HeadOfCode(kind, body, rest);
    assert code[|kind| + |body| + 6..] == rest;
    ScanCode(w, code, Code(kind, body, |kind| + |body| + 6), rest);
  }

  lemma ScanText(w: string)
    requires '[' !in w
    ensures Scan(w) == Between(w)
  {
    FindAfter(w, "");
    assert w + "" == w;
  }

  lemma {:induction false} ScanPrinted(pending: string, pieces: seq<Piece>)
    requires forall i :: 0 <= i < |pieces| ==> Printable(pieces[i])
    ensures Scan(Encode(IN_TEXT, pending) + Print(pieces)) == Cuts(pending, pieces)
    decreases |pieces|
  {
    EncodeHides(IN_TEXT, pending, '[');
    if pieces == [] {
      assert Encode(IN_TEXT, pending) + "" == Encode(IN_TEXT, pending);
      ScanText(Encode(IN_TEXT, pending));
    } else {
      assert Printable(pieces[0]);
      match pieces[0]
      case Text(text) =>
        PrintedText(pending, text, Print(pieces[1..]));
        ScanPrinted(pending + text, pieces[1..]);
      case Cq(kind, params) =>
        ScanPiece(Encode(IN_TEXT, pending), kind, params, Print(pieces[1..]));
        PrintedText("", "", Print(pieces[1..]));
        ScanPrinted("", pieces[1..]);
    }
  }

  lemma PrintedText(pending: string, text: string, rest: string)
    ensures Encode(IN_TEXT, pending) + (Encode(IN_TEXT, text) + rest) == Encode(IN_TEXT, pending + text) + rest
    ensures Encode(IN_TEXT, "") + rest == rest
  {
    EncodeConcat(IN_TEXT, pending, text);
  }

  lemma {:induction false} ReadConcat(a: seq<Cut>, b: seq<Cut>)
    ensures ReadAll(a + b) == ReadAll(a) + ReadAll(b)
  {
    if b == [] {
      assert a + b == a;
    } else {
      assert (a + b)[..|a + b| - 1] == a + b[..|b| - 1];
      ReadConcat(a, b[..|b| - 1]);
    }
  }

  lemma ReadSingle(c: Cut)
    ensures ReadAll([c]) == [Read(c)]
  {
    ReadOne([], c);
    assert [] + [c] == [c];
  }

  lemma ReadText(pending: string)
    ensures ReadAll(Between(Encode(IN_TEXT, pending))) == Plain(pending)
  {
    if pending != "" {
      ReadSingle(Stretch(Encode(IN_TEXT, pending)));
      UnescapeEncode(IN_TEXT, pending);
    }
  }

  lemma ReadMatch(kind: string, params: seq<(string, string)>)
    requires params != [] && forall i :: 0 <= i < |params| ==> CleanKey(params[i].0)
    ensures ReadAll([Match(kind, Join(Params(params), ','))]) == [Normalize(Segment(kind, ParamMap(params)))]
  {
    BodyOf(params);
    FieldsOfParams(params);
    ReadSingle(Match(kind, Join(Params(params), ',')));
  }

  lemma {:induction false} ReadCuts(pending: string, pieces: seq<Piece>)
    requires forall i :: 0 <= i < |pieces| ==> Printable(pieces[i])
    ensures ReadAll(Cuts(pending, pieces)) == Meaning(pending, pieces)
    decreases |pieces|
  {
    if pieces == [] {
      ReadText(pending);
    } else {
      match pieces[0]
      case Text(text) => ReadCuts(pending + text, pieces[1..]);
      case Cq(kind, params) =>
        assert Printable(pieces[0]);
        var text, code := Between(Encode(IN_TEXT, pending)), [Match(kind, Join(Params(params), ','))];
        ReadConcat(text + code, Cuts("", pieces[1..]));
        ReadConcat(text, code);
        ReadText(pending);
        ReadMatch(kind, params);
        ReadCuts("", pieces[1..]);
    }
  }

  /** Parsing what was printed gives its meaning, for any texts and values. */
  lemma RoundTrip(pieces: seq<Piece>)
    requires forall i :: 0 <= i < |pieces| ==> Printable(pieces[i])
    ensures Parse(Print(pieces)) == Meaning("", pieces)
  {
    ScanPrinted("", pieces);
    assert Encode(IN_TEXT, "") + Print(pieces) == Print(pieces);
    ReadCuts("", pieces);
  }

  /** The segment a piece stands for. */
  function Own(p: Piece): Segment {
    match p
    case Text(text) => Segment("text", map["text" := text])
    case Cq(kind, params) => Normalize(Segment(kind, ParamMap(params)))
  }

  /** No empty text and no two texts in a row. */
  predicate Separate(pieces: seq<Piece>) {
    forall i :: 0 <= i < |pieces| && pieces[i].Text? ==>
      pieces[i].text != "" && (i + 1 < |pieces| ==> pieces[i + 1].Cq?)
  }

  function Owns(pieces: seq<Piece>): seq<Segment> {
    if pieces == [] then [] else [Own(pieces[0])] + Owns(pieces[1..])
  }

  lemma {:induction false} MeaningIsOwn(pending: string, pieces: seq<Piece>)
    requires Separate(pieces) && (pending != "" && pieces != [] ==> pieces[0].Cq?)
    ensures Meaning(pending, pieces) == Plain(pending) + Owns(pieces)
    decreases |pieces|
  {
    if pieces != [] {
      var rest := pieces[1..];
      assert rest != [] ==> rest[0] == pieces[1];
      match pieces[0]
      case Text(text) =>
        assert pending + text == text;
        MeaningIsOwn(text, rest);
      case Cq(_, _) => MeaningIsOwn("", rest);
    }
  }

  /** Non-empty texts with a code between any two come back piece by piece. */
  lemma PiecesComeBack(pieces: seq<Piece>)
    requires Separate(pieces) && forall i :: 0 <= i < |pieces| ==> Printable(pieces[i])
    ensures Parse(Print(pieces)) == Owns(pieces)
  {
    RoundTrip(pieces);
    MeaningIsOwn("", pieces);
  }

  // ---------------------------------------------------------------- codes without parameters

  lemma UnescapePlain(s: string)
    requires '&' !in s
    ensures Unescape(s) == s
  {
    assert s + "" == s;
    Skip(s, "", "&#91;", "[");
    Skip(s, "", "&#93;", "]");
    Skip(s, "", "&#44;", ",");
    Skip(s, "", "&amp;", "&");
  }

  /** A code needs a parameter: `[CQ:kind]` comes back as text. */
  lemma BareCodeIsText(kind: string)
    requires forall i :: 0 <= i < |kind| ==> KindChar(kind[i])
    ensures var s := "[CQ:" + kind + "]"; Parse(s) == Plain(s)
  {
    var s := "[CQ:" + kind + "]";
    BareHead(kind);
    assert s[1..] == "CQ:" + kind + "]";
    ScanBare(s);
    UnescapePlain(s);
    ReadSingle(Stretch(s));
  }

  lemma ScanBare(s: string)
    requires s != "" && Head(s).None? && '[' !in s[1..]
    ensures Scan(s) == [Stretch(s)]
  {
    FindAfter(s[1..], "");
    assert s[1..] + "" == s[1..];
  }

  lemma {:induction false} BareKindLength(kind: string)
    requires forall i :: 0 <= i < |kind| ==> KindChar(kind[i])
    ensures KindLength(kind + "]") == |kind|
  {
    if kind != "" {
      assert (kind + "]")[1..] == kind[1..] + "]";
      BareKindLength(kind[1..]);
    }
  }

  lemma BareHead(kind: string)
    requires forall i :: 0 <= i < |kind| ==> KindChar(kind[i])
    ensures Head("[CQ:" + kind + "]").None?
  {
    var s := "[CQ:" + kind + "]";
    assert s[4..] == kind + "]";
    BareKindLength(kind);
    assert s[4 + |kind|] == ']';
  }

  // ---------------------------------------------------------------- what is read in particular

  /** Only an `at` code is changed, and only by its account: the one under `user_id`, if
      there is none the one under `qq`, else an empty one. */
  lemma AtSays(kind: string, data: map<string, string>)
    ensures var n := Normalize(Segment(kind, data));
      && n.kind == kind && (kind != "at" ==> n.data == data)
      && (kind == "at" ==>
            && n.data.Keys == data.Keys + {"user_id"}
            && (forall k :: k in data && k != "user_id" ==> n.data[k] == data[k])
            && ("user_id" in data && data["user_id"] != "" ==> n.data["user_id"] == data["user_id"])
            && (("user_id" in data ==> data["user_id"] == "") && "qq" in data ==> n.data["user_id"] == data["qq"])
            && (("user_id" in data ==> data["user_id"] == "") && "qq" !in data ==> n.data["user_id"] == ""))
  {
  }

  /** `[CQ:at,qq=x]` mentions the account `x`. */
  lemma AtIsRead(x: string)
    ensures Parse("[CQ:" + "at" + "," + ("qq" + "=" + Encode(IN_VALUE, x)) + "]")
         == [Segment("at", map["qq" := Strip(x), "user_id" := Strip(x)])]
  {
    var p := Cq("at", [("qq", x)]);
    AtPrinted(x);
    assert [p][1..] == [] && Print([p]) == PrintPiece(p) + Print([]) == PrintPiece(p) + "";
    assert PrintPiece(p) + "" == PrintPiece(p);
    KindCharsOfAt();
    PiecesComeBack([p]);
    AtMap(x);
    var own := Own(p);
    assert Owns([p]) == [own] + Owns([p][1..]) == [own] + [] == [own];
  }

  lemma KindCharsOfAt()
    ensures forall i :: 0 <= i < |"at"| ==> KindChar("at"[i])
    ensures CleanKey("qq")
  {
    assert "at"[0] == 'a' && "at"[1] == 't';
  }

  lemma AtPrinted(x: string)
    ensures PrintPiece(Cq("at", [("qq", x)])) == "[CQ:" + "at" + "," + ("qq" + "=" + Encode(IN_VALUE, x)) + "]"
  {
    OneParam("at", ("qq", x));
  }

  lemma OneParam(kind: string, p: (string, string))
    ensures PrintPiece(Cq(kind, [p])) == "[CQ:" + kind + "," + Param(p) + "]"
  {
    assert Params([p]) == [Param(p)];
    assert Join([Param(p)], ',') == Param(p);
  }

  lemma AtMap(x: string)
    ensures Own(Cq("at", [("qq", x)])) == Segment("at", map["qq" := Strip(x), "user_id" := Strip(x)])
  {
    var ps := [("qq", x)];
    assert ps[..0] == [] && ParamMap(ps[..0]) == map[];
    assert Strip("qq") == "qq" by {
      StripSays("", "qq", "");
      assert "" + "qq" + "" == "qq";
    }
    assert ParamMap(ps) == map["qq" := Strip(x)];
    AtSays("at", ParamMap(ps));
  }

  /** Letters, digits, underscores and hyphens make a kind. */
  lemma KindSays(c: char)
    ensures KindChar(c) <==>
      97 <= c as int <= 122 || 65 <= c as int <= 90 || 48 <= c as int <= 57 || c as int == 95 || c as int == 45
  {
  }

  lemma {:induction false} KindLengthSays(s: string)
    ensures forall i :: 0 <= i < KindLength(s) ==> KindChar(s[i])
    ensures KindLength(s) < |s| ==> !KindChar(s[KindLength(s)])
  {
    if s != "" && KindChar(s[0]) {
      KindLengthSays(s[1..]);
    }
  }

  /** A text starts with a code exactly when it starts with `[CQ:`, a kind, a comma, a
      body without a closing bracket and a closing bracket; neither may be empty. */
  lemma HeadIff(s: string, c: Code)
    ensures Head(s) == Some(c) <==>
      && c.kind != "" && (forall i :: 0 <= i < |c.kind| ==> KindChar(c.kind[i]))
      && c.body != "" && ']' !in c.body && c.size == |c.kind| + |c.body| + 6
      && c.size <= |s| && s[..c.size] == "[CQ:" + c.kind + "," + c.body + "]"
  {
    if Head(s) == Some(c) {
      HeadIsCode(s, c);
    }
    if c.kind != "" && (forall i :: 0 <= i < |c.kind| ==> KindChar(c.kind[i])) && c.body != "" && ']' !in c.body
      && c.size == |c.kind| + |c.body| + 6 && c.size <= |s| && s[..c.size] == "[CQ:" + c.kind + "," + c.body + "]"
    {
      HeadOfCode(c.kind, c.body, s[c.size..]);
      assert s == s[..c.size] + s[c.size..];
    }
  }

  lemma HeadIsCode(s: string, c: Code)
    requires Head(s) == Some(c)
    ensures c.kind != "" && (forall i :: 0 <= i < |c.kind| ==> KindChar(c.kind[i]))
    ensures c.body != "" && ']' !in c.body && c.size == |c.kind| + |c.body| + 6
    ensures c.size <= |s| && s[..c.size] == "[CQ:" + c.kind + "," + c.body + "]"
  {
    var n := KindLength(s[4..]);
    KindLengthSays(s[4..]);
    var rest := s[5 + n..];
    IndexSays(rest, ']');
    var b := IndexOf(rest, ']');
    assert c.kind == s[4..4 + n] && c.body == rest[..b] && rest[..b] == s[5 + n..5 + n + b];
    assert forall i :: 0 <= i < n ==> c.kind[i] == s[4..][i];
    assert s[5 + n + b] == rest[b] == ']';
    SplitHead(s, n, b);
  }

  lemma SplitHead(s: string, n: nat, b: nat)
    requires n + b + 6 <= |s| && s[0] == '[' && s[1] == 'C' && s[2] == 'Q' && s[3] == ':'
    requires s[4 + n] == ',' && s[5 + n + b] == ']'
    ensures s[..n + b + 6] == "[CQ:" + s[4..4 + n] + "," + s[5 + n..5 + n + b] + "]"
  {
  }

  /** The code that is found is the first: no earlier position starts one. */
  lemma {:induction false} FoundFirst(s: string, j: nat)
    requires j < |s|
    requires FindCode(s).Some? ==> j < |FindCode(s).value.before|
    ensures Head(s[j..]).None?
  {
    if j == 0 {
      assert s[0..] == s;
    } else {
      FoundFirst(s[1..], j - 1);
      assert s[1..][j - 1..] == s[j..];
    }
  }

  /** A part `key=value` sets its key, both stripped, to its value; a part without `=` is skipped. */
  lemma PartSays(data: map<string, string>, key: string, value: string, part: string)
    requires '=' !in key && '=' !in part
    ensures Put(data, key + "=" + value) == data[Strip(key) := Unescape(Strip(value))]
    ensures Put(data, part) == data
  {
    var t := key + "=" + value;
    IndexOfFirst(key, '=', value);
    assert key + ['='] + value == t && t[..|key|] == key && t[|key| + 1..] == value;
    IndexSays(part, '=');
  }

  /** Which entity stands for which character. */
  lemma EntitiesSay()
    ensures Unescape("&#91;") == "[" && Unescape("&#93;") == "]" && Unescape("&#44;") == "," && Unescape("&amp;") == "&"
    ensures Entity('[') == "&#91;" && Entity(']') == "&#93;" && Entity(',') == "&#44;" && Entity('&') == "&amp;"
  {
    OneEntity('[');
    OneEntity(']');
    OneEntity(',');
    OneEntity('&');
  }

  lemma OneEntity(c: char)
    requires c in IN_VALUE
    ensures Unescape(Entity(c)) == [c]
  {
    assert [c][1..] == "" && Encode(IN_VALUE, [c]) == Entity(c) + "" == Entity(c);
    UnescapeEncode(IN_VALUE, [c]);
  }
}

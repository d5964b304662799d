/** Binding argument tokens to declared parameters, by position or as `key=value`. */
module ParamBinding {
  import opened PyText
  import opened Tokenizer
  import opened Options

  /** A parameter that takes the rest of the tokens has `rest` set. */
  datatype Param<V> = Param(name: string, rest: bool, required: bool, default: V)

  /** How tokens become values: `convert` checks type and choices, `text` is for the rest of the tokens. */
  datatype Conversion<!V> = Conversion(convert: (Param<V>, string) -> Option<V>, text: string -> V)

  datatype Refusal =
    | Missing(name: string) | BadValue(name: string) | Surplus(tokens: seq<string>) | Unknown(keys: seq<string>)

  datatype Outcome<V> = Bound(values: map<string, V>) | Refused(reason: Refusal)

  // ---------------------------------------------------------------- named and positional tokens

  datatype Sorted = Sorted(named: map<string, string>, positional: seq<string>, unknown: seq<string>)

  predicate IsNamed(token: string) {
    IndexOf(token, '=') < |token| && token[0] != '='
  }

  predicate Declares<V>(params: seq<Param<V>>, name: string) {
    exists i :: 0 <= i < |params| && params[i].name == name
  }

  function SortToken<V>(s: Sorted, token: string, params: seq<Param<V>>): Sorted {
    if !IsNamed(token) then s.(positional := s.positional + [token])
    else
      var i := IndexOf(token, '=');
      if Declares(params, token[..i]) then s.(named := s.named[token[..i] := token[i + 1..]])
      else s.(unknown := s.unknown + [token[..i]])
  }

  function SortTokens<V>(tokens: seq<string>, params: seq<Param<V>>): Sorted {
    if tokens == [] then Sorted(map[], [], [])
    else SortToken(SortTokens(tokens[..|tokens| - 1], params), tokens[|tokens| - 1], params)
  }

  // ---------------------------------------------------------------- the parameters in turn

  /** The values so far and the positional tokens that are left, or a refusal. */
  datatype Progress<V> = Going(values: map<string, V>, left: seq<string>) | Stopped(reason: Refusal)

  function BindAll<V>(params: seq<Param<V>>, named: map<string, string>, left: seq<string>, values: map<string, V>,
                      c: Conversion<V>): Progress<V>
    decreases |params|
  {
    if params == [] then Going(values, left)
    else
      var p := params[0];
      if p.name !in named && left == [] then
        if p.required then Stopped(Missing(p.name))
        else BindAll(params[1..], named, left, values[p.name := p.default], c)
      else
        var token := if p.name in named then named[p.name] else left[0];
        var left' := if p.name in named then left else left[1..];
        if p.rest then Going(values[p.name := c.text(Join([token] + left', ' '))], [])
        else
          var v := c.convert(p, token);
          if v.None? then Stopped(BadValue(p.name))
          else BindAll(params[1..], named, left', values[p.name := v.value], c)
  }

  function FirstMissing<V>(params: seq<Param<V>>, values: map<string, V>): Option<string> {
    if params == [] then None
    else if params[0].name !in values && params[0].required then Some(params[0].name)
    else FirstMissing(params[1..], values)
  }

  function Bind<V>(tokens: seq<string>, params: seq<Param<V>>, c: Conversion<V>): Outcome<V> {
    var s := SortTokens(tokens, params);
    Conclude(params, BindAll(params, s.named, s.positional, map[], c), s.unknown)
  }

  function Conclude<V>(params: seq<Param<V>>, progress: Progress<V>, unknown: seq<string>): Outcome<V> {
    if progress.Stopped? then Refused(progress.reason)
    else if FirstMissing(params, progress.values).Some? then
      Refused(Missing(FirstMissing(params, progress.values).value))
    else if progress.left != [] then Refused(Surplus(progress.left))
    else if unknown != [] then Refused(Unknown(unknown))
    else Bound(progress.values)
  }

  method BindParams<V>(raw: string, params: seq<Param<V>>, c: Conversion<V>) returns (r: Outcome<V>)
    ensures r == Bind(Tokenize(raw), params, c)
  {
    var tokens := TokenizeArgs(raw);
    var s := Sorted(map[], [], []);
    for k := 0 to |tokens|
      invariant s == SortTokens(tokens[..k], params)
    {
      assert tokens[..k + 1][..k] == tokens[..k];
      s := SortToken(s, tokens[k], params);
    }
    assert tokens[..|tokens|] == tokens;
    var progress := BindEach(params, s.named, s.positional, c);
    r := Conclude(params, progress, s.unknown);
  }

  method BindEach<V>(params: seq<Param<V>>, named: map<string, string>, positional: seq<string>, c: Conversion<V>)
      returns (r: Progress<V>)
    ensures r == BindAll(params, named, positional, map[], c)
  {
    var values: map<string, V> := map[];
    var left := positional;
    for k := 0 to |params|
      invariant BindAll(params, named, positional, map[], c) == BindAll(params[k..], named, left, values, c)
    {
      var p := params[k];
      assert params[k..][0] == p && params[k..][1..] == params[k + 1..];
      var token;
      if p.name in named {
        token := named[p.name];
      } else if left != [] {
        token, left := left[0], left[1..];
      } else if p.required {
        return Stopped(Missing(p.name));
      } else {
        values := values[p.name := p.default];
        continue;
      }
      if p.rest {
        return Going(values[p.name := c.text(Join([token] + left, ' '))], []);
      }
      var v := c.convert(p, token);
      if v.None? {
        return Stopped(BadValue(p.name));
      }
      values := values[p.name := v.value];
    }
    assert params[|params|..] == [];
    r := Going(values, left);
  }

  // ---------------------------------------------------------------- what each parameter gets

  /** How many of the first `i` parameters are not named. */
  function Unnamed<V>(params: seq<Param<V>>, named: map<string, string>, i: nat): nat
    requires i <= |params|
  {
    if i == 0 then 0 else (if params[0].name in named then 0 else 1) + Unnamed(params[1..], named, i - 1)
  }

  /** The token a parameter gets: the named one, or the positional one whose
      turn it is among the parameters that are not named. */
  function TokenFor<V>(params: seq<Param<V>>, named: map<string, string>, positional: seq<string>,
                       i: nat): Option<string>
    requires i < |params|
  {
    if params[i].name in named then Some(named[params[i].name])
    else if Unnamed(params, named, i) < |positional| then Some(positional[Unnamed(params, named, i)])
    else None
  }

  /** Its value; without a token only an optional parameter has one. */
  function ValueFor<V>(params: seq<Param<V>>, named: map<string, string>, positional: seq<string>, i: nat,
                       c: Conversion<V>): Option<V>
    requires i < |params|
  {
    var t := TokenFor(params, named, positional, i);
    if t.Some? then c.convert(params[i], t.value)
    else if params[i].required then None
    else Some(params[i].default)
  }

  /** A named token counts before a positional one; the positional tokens go to the
      parameters that are not named, in order; without a token an optional
      parameter has its default. */
  lemma ValueSays<V>(params: seq<Param<V>>, named: map<string, string>, positional: seq<string>, i: nat,
                     c: Conversion<V>)
    requires i < |params|
    ensures var p, u, v := params[i], Unnamed(params, named, i), ValueFor(params, named, positional, i, c);
      && (p.name in named ==> v == c.convert(p, named[p.name]))
      && (p.name !in named && u < |positional| ==> v == c.convert(p, positional[u]))
      && (p.name !in named && u >= |positional| ==> v == if p.required then None else Some(p.default))
    ensures Unnamed(params, named, 0) == 0
    ensures Unnamed(params, named, i + 1) == Unnamed(params, named, i) + if params[i].name in named then 0 else 1
  {
    UnnamedSnoc(params, named, i);
  }

  lemma {:induction false} UnnamedSnoc<V>(params: seq<Param<V>>, named: map<string, string>, i: nat)
    requires i < |params|
    ensures Unnamed(params, named, i + 1) == Unnamed(params, named, i) + if params[i].name in named then 0 else 1
  {
    if i > 0 {
      UnnamedSnoc(params[1..], named, i - 1);
    }
  }

  predicate AllValued<V>(params: seq<Param<V>>, named: map<string, string>, positional: seq<string>, c: Conversion<V>) {
    forall i {:trigger ValueFor(params, named, positional, i, c)} :: 0 <= i < |params| ==>
      ValueFor(params, named, positional, i, c).Some?
  }

  function Rest<V>(p: Param<V>, named: map<string, string>, left: seq<string>): seq<string> {
    if p.name in named || left == [] then left else left[1..]
  }

  lemma ValueShift<V>(params: seq<Param<V>>, named: map<string, string>, left: seq<string>, i: nat, c: Conversion<V>)
    requires 0 < i < |params|
    ensures ValueFor(params, named, left, i, c) == ValueFor(params[1..], named, Rest(params[0], named, left), i - 1, c)
  {
  }

  lemma ValuedCons<V>(params: seq<Param<V>>, named: map<string, string>, left: seq<string>, c: Conversion<V>)
    requires params != []
    ensures AllValued(params, named, left, c) <==>
      ValueFor(params, named, left, 0, c).Some? && AllValued(params[1..], named, Rest(params[0], named, left), c)
  {
    var rest := Rest(params[0], named, left);
    if AllValued(params, named, left, c) {
      forall i | 0 <= i < |params[1..]| ensures ValueFor(params[1..], named, rest, i, c).Some? {
        ValueShift(params, named, left, i + 1, c);
        assert ValueFor(params, named, left, i + 1, c).Some?;
      }
    }
    if ValueFor(params, named, left, 0, c).Some? && AllValued(params[1..], named, rest, c) {
      forall i | 0 <= i < |params| ensures ValueFor(params, named, left, i, c).Some? {
        if i > 0 {
          ValueShift(params, named, left, i, c);
        }
      }
    }
  }

  predicate NoRest<V>(params: seq<Param<V>>) {
    forall i :: 0 <= i < |params| ==> !params[i].rest
  }

  predicate DistinctNames<V>(params: seq<Param<V>>) {
    forall i, j :: 0 <= i < j < |params| ==> params[i].name != params[j].name
  }

  /** One parameter that takes no rest. */
  lemma BindOne<V>(params: seq<Param<V>>, named: map<string, string>, left: seq<string>, values: map<string, V>,
                   c: Conversion<V>)
    requires params != [] && !params[0].rest
    ensures var v, r := ValueFor(params, named, left, 0, c), BindAll(params, named, left, values, c);
      && (v.None? ==> r.Stopped?)
      && (v.Some? ==>
            r == BindAll(params[1..], named, Rest(params[0], named, left), values[params[0].name := v.value], c))
  {
  }

  function LeftOver(left: seq<string>, used: nat): seq<string> {
    if used < |left| then left[used..] else []
  }

  lemma LeftOverShift<V>(params: seq<Param<V>>, named: map<string, string>, left: seq<string>)
    requires params != []
    ensures LeftOver(Rest(params[0], named, left), Unnamed(params[1..], named, |params| - 1))
         == LeftOver(left, Unnamed(params, named, |params|))
  {
  }

  /** The loop succeeds exactly when every parameter has a value, and has then
      used the positional tokens of the parameters that are not named. */
  lemma {:induction false} BindAllIff<V>(params: seq<Param<V>>, named: map<string, string>, left: seq<string>,
                                         values: map<string, V>, c: Conversion<V>)
    requires NoRest(params)
    ensures var r := BindAll(params, named, left, values, c);
      && (r.Going? <==> AllValued(params, named, left, c))
      && (r.Going? ==> r.left == LeftOver(left, Unnamed(params, named, |params|)))
    decreases |params|
  {
    if params != [] {
      LeftOverShift(params, named, left);
      BindOne(params, named, left, values, c);
      ValuedCons(params, named, left, c);
      var v := ValueFor(params, named, left, 0, c);
      if v.Some? {
        BindAllIff(params[1..], named, Rest(params[0], named, left), values[params[0].name := v.value], c);
      }
    }
  }

  ghost predicate Holds<V>(values: map<string, V>, params: seq<Param<V>>, named: map<string, string>, left: seq<string>,
                           c: Conversion<V>) {
    forall i {:trigger ValueFor(params, named, left, i, c)} :: 0 <= i < |params| ==>
      params[i].name in values && ValueFor(params, named, left, i, c) == Some(values[params[i].name])
  }

  ghost predicate Extends<V>(after: map<string, V>, before: map<string, V>, params: seq<Param<V>>) {
    forall n {:trigger n in after} {:trigger n in before} :: !Declares(params, n) ==>
      (n in after <==> n in before) && (n in after ==> after[n] == before[n])
  }

  lemma DeclaresCons<V>(params: seq<Param<V>>, n: string)
    requires params != []
    ensures Declares(params, n) <==> params[0].name == n || Declares(params[1..], n)
  {
    if Declares(params[1..], n) {
      var i :| 0 <= i < |params[1..]| && params[1..][i].name == n;
      assert params[i + 1].name == n;
    }
  }

  lemma HeadIsNew<V>(params: seq<Param<V>>)
    requires params != [] && DistinctNames(params)
    ensures !Declares(params[1..], params[0].name)
  {
    assert forall i :: 0 <= i < |params[1..]| ==> params[1..][i] == params[i + 1];
  }

  lemma HoldsCons<V>(values: map<string, V>, params: seq<Param<V>>, named: map<string, string>, left: seq<string>,
                     c: Conversion<V>)
    requires params != [] && params[0].name in values
    requires ValueFor(params, named, left, 0, c) == Some(values[params[0].name])
    requires Holds(values, params[1..], named, Rest(params[0], named, left), c)
    ensures Holds(values, params, named, left, c)
  {
    forall i | 0 <= i < |params|
      ensures params[i].name in values && ValueFor(params, named, left, i, c) == Some(values[params[i].name])
    {
      if i > 0 {
        ValueShift(params, named, left, i, c);
        assert params[1..][i - 1] == params[i];
      }
    }
  }

  lemma {:induction false} BindAllValues<V>(params: seq<Param<V>>, named: map<string, string>, left: seq<string>,
                                            values: map<string, V>, c: Conversion<V>)
    requires NoRest(params) && DistinctNames(params) && BindAll(params, named, left, values, c).Going?
    ensures var r := BindAll(params, named, left, values, c);
      Holds(r.values, params, named, left, c) && Extends(r.values, values, params)
    decreases |params|
  {
    if params != [] {
      BindOne(params, named, left, values, c);
      var p, v := params[0], ValueFor(params, named, left, 0, c);
      var next := values[p.name := v.value];
      BindAllValues(params[1..], named, Rest(p, named, left), next, c);
      var after := BindAll(params, named, left, values, c).values;
      HeadIsNew(params);
      assert p.name in after && after[p.name] == v.value;
      HoldsCons(after, params, named, left, c);
      forall n ensures Declares(params, n) <==> p.name == n || Declares(params[1..], n) {
        DeclaresCons(params, n);
      }
    }
  }

  /** Without a rest parameter and with distinct names, binding succeeds exactly
      when no named token is unknown, there is no positional token too many and
      every parameter has a value. */
  lemma BindIff<V>(tokens: seq<string>, params: seq<Param<V>>, c: Conversion<V>)
    requires NoRest(params) && DistinctNames(params)
    ensures var s := SortTokens(tokens, params);
      Bind(tokens, params, c).Bound? <==>
        && s.unknown == [] && |s.positional| <= Unnamed(params, s.named, |params|)
        && AllValued(params, s.named, s.positional, c)
  {
    var s := SortTokens(tokens, params);
    BindAllIff(params, s.named, s.positional, map[], c);
    var r := BindAll(params, s.named, s.positional, map[], c);
    if r.Going? {
      BindAllValues(params, s.named, s.positional, map[], c);
      NoneMissing(params, r.values, params, s.named, s.positional, c);
    }
  }

  lemma {:induction false} NoneMissing<V>(rest: seq<Param<V>>, values: map<string, V>, params: seq<Param<V>>,
                                          named: map<string, string>, left: seq<string>, c: Conversion<V>)
    requires Holds(values, params, named, left, c) && |rest| <= |params| && rest == params[|params| - |rest|..]
    ensures FirstMissing(rest, values).None?
  {
    if rest != [] {
      var i := |params| - |rest|;
      assert ValueFor(params, named, left, i, c) == ValueFor(params, named, left, i, c);
      assert rest[1..] == params[i + 1..];
      NoneMissing(rest[1..], values, params, named, left, c);
    }
  }

  /** Then every parameter, and nothing else, is bound, each to its own value. */
  lemma BoundValues<V>(tokens: seq<string>, params: seq<Param<V>>, c: Conversion<V>)
    requires NoRest(params) && DistinctNames(params) && Bind(tokens, params, c).Bound?
    ensures var s, values := SortTokens(tokens, params), Bind(tokens, params, c).values;
      && Holds(values, params, s.named, s.positional, c)
      && forall n :: n in values ==> Declares(params, n)
  {
    var s := SortTokens(tokens, params);
    BindAllValues(params, s.named, s.positional, map[], c);
  }

  lemma {:induction false} UnnamedAt<V>(params: seq<Param<V>>, named: map<string, string>, k: nat) returns (i: nat)
    requires k < Unnamed(params, named, |params|)
    ensures i < |params| && params[i].name !in named && Unnamed(params, named, i) == k
    decreases |params|
  {
    if params[0].name in named {
      var j := UnnamedAt(params[1..], named, k);
      i := j + 1;
    } else if k == 0 {
      i := 0;
    } else {
      var j := UnnamedAt(params[1..], named, k - 1);
      i := j + 1;
    }
  }

  /** Parameter `i` takes positional token number `k`. */
  predicate Takes<V>(params: seq<Param<V>>, named: map<string, string>, i: int, k: int) {
    0 <= i < |params| && params[i].name !in named && Unnamed(params, named, i) == k
  }

  lemma {:induction false} UnnamedGrows<V>(params: seq<Param<V>>, named: map<string, string>, i: nat, j: nat)
    requires i < j <= |params| && params[i].name !in named
    ensures Unnamed(params, named, i) < Unnamed(params, named, j)
  {
    if i > 0 {
      UnnamedGrows(params[1..], named, i - 1, j - 1);
    }
  }

  /** Each positional token is taken by exactly one parameter, and they are taken in order. */
  lemma EveryTokenUsedOnce<V>(params: seq<Param<V>>, named: map<string, string>, positional: seq<string>, k: nat)
    requires k < |positional| <= Unnamed(params, named, |params|)
    ensures exists i {:trigger Takes(params, named, i, k)} ::
      && Takes(params, named, i, k) && TokenFor(params, named, positional, i) == Some(positional[k])
      && forall j {:trigger Takes(params, named, j, k)} :: Takes(params, named, j, k) ==> j == i
    ensures forall i, j, m {:trigger Takes(params, named, i, k), Takes(params, named, j, m)} ::
      Takes(params, named, i, k) && Takes(params, named, j, m) ==> (i < j <==> k < m)
  {
    forall i, j, m {:trigger Takes(params, named, i, k), Takes(params, named, j, m)}
      | Takes(params, named, i, k) && Takes(params, named, j, m)
      ensures i < j <==> k < m
    {
      if i < j { UnnamedGrows(params, named, i, j); }
      if j < i { UnnamedGrows(params, named, j, i); }
    }
    var i := UnnamedAt(params, named, k);
    assert Takes(params, named, i, k) && TokenFor(params, named, positional, i) == Some(positional[k]);
  }

  // ---------------------------------------------------------------- sorting the tokens

  /** A token `key=value` with a key goes under its key if some parameter has this
      name, and the last one with a key counts; otherwise the key is unknown. A token
      without `=`, or with it in front, is positional. */
  lemma TokenSays<V>(tokens: seq<string>, key: string, value: string, plain: string, params: seq<Param<V>>)
    requires key != "" && '=' !in key && ('=' !in plain || plain[0] == '=')
    ensures var s := SortTokens(tokens, params);
      && SortTokens(tokens + [plain], params) == Sorted(s.named, s.positional + [plain], s.unknown)
      && SortTokens(tokens + [key + "=" + value], params) ==
        if exists i :: 0 <= i < |params| && params[i].name == key
        then Sorted(s.named[key := value], s.positional, s.unknown)
        else Sorted(s.named, s.positional, s.unknown + [key])
    ensures var none := SortTokens([], params); none.named == map[] && none.positional == [] && none.unknown == []
  {
    var t := key + "=" + value;
    assert (tokens + [plain])[..|tokens|] == tokens && (tokens + [t])[..|tokens|] == tokens;
    IndexOfFirst(key, '=', value);
    assert key + ['='] + value == t && t[0] == key[0] && t[..|key|] == key && t[|key| + 1..] == value;
    assert key[0] in key;
    IndexSays(plain, '=');
  }

  // ---------------------------------------------------------------- why binding is refused

  /** The first parameter without a value refuses: as missing when there is no
      token for it, otherwise as a bad value. */
  lemma {:induction false} RefusedBy<V>(params: seq<Param<V>>, named: map<string, string>, left: seq<string>,
                                        values: map<string, V>, c: Conversion<V>, i: nat)
    requires NoRest(params) && i < |params| && ValueFor(params, named, left, i, c).None?
    requires forall j {:trigger ValueFor(params, named, left, j, c)} ::
      0 <= j < i ==> ValueFor(params, named, left, j, c).Some?
    ensures BindAll(params, named, left, values, c) == Stopped(
      if TokenFor(params, named, left, i).None? then Missing(params[i].name) else BadValue(params[i].name))
    decreases |params|
  {
    BindOne(params, named, left, values, c);
    if i > 0 {
      var rest := Rest(params[0], named, left);
      assert ValueFor(params, named, left, 0, c).Some?;
      ValueShift(params, named, left, i, c);
      forall j | 0 <= j < i - 1 ensures ValueFor(params[1..], named, rest, j, c).Some? {
        ValueShift(params, named, left, j + 1, c);
        assert ValueFor(params, named, left, j + 1, c).Some?;
      }
      var next := values[params[0].name := ValueFor(params, named, left, 0, c).value];
      RefusedBy(params[1..], named, rest, next, c, i - 1);
    }
  }

  /** What is concluded from the loop: its own refusal comes first, then a required
      parameter that was not reached, then tokens left over, then unknown names. */
  lemma ConcludeSays<V>(params: seq<Param<V>>, progress: Progress<V>, unknown: seq<string>)
    ensures var r := Conclude(params, progress, unknown);
      && (progress.Stopped? ==> r == Refused(progress.reason))
      && (progress.Going? ==>
            var missing := exists i :: 0 <= i < |params| && params[i].required && params[i].name !in progress.values;
            && (missing ==> exists i ::
                  && 0 <= i < |params| && IsFirstMissing(params, progress.values, i)
                  && r == Refused(Missing(params[i].name)))
            && (!missing && progress.left != [] ==> r == Refused(Surplus(progress.left)))
            && (!missing && progress.left == [] && unknown != [] ==> r == Refused(Unknown(unknown)))
            && (!missing && progress.left == [] && unknown == [] ==> r == Bound(progress.values)))
  {
    if progress.Going? {
      FirstMissingSays(params, progress.values);
    }
  }

  predicate IsFirstMissing<V>(params: seq<Param<V>>, values: map<string, V>, i: nat)
    requires i < |params|
  {
    && params[i].required && params[i].name !in values
    && forall j :: 0 <= j < i ==> !params[j].required || params[j].name in values
  }

  lemma {:induction false} FirstMissingSays<V>(params: seq<Param<V>>, values: map<string, V>)
    ensures var m := FirstMissing(params, values);
      && (m.None? <==> forall i :: 0 <= i < |params| ==> !params[i].required || params[i].name in values)
      && (m.Some? ==> exists i :: 0 <= i < |params| && IsFirstMissing(params, values, i) && params[i].name == m.value)
  {
    if params != [] && (params[0].name in values || !params[0].required) {
      FirstMissingSays(params[1..], values);
      assert forall i :: 0 < i < |params| ==> params[i] == params[1..][i - 1];
      var m := FirstMissing(params[1..], values);
      if m.Some? {
        var i :| 0 <= i < |params[1..]| && IsFirstMissing(params[1..], values, i) && params[1..][i].name == m.value;
        assert IsFirstMissing(params, values, i + 1);
      } else {
        forall i | 0 <= i < |params| ensures !params[i].required || params[i].name in values {
          assert i > 0 ==> params[i] == params[1..][i - 1];
        }
      }
    } else if params != [] {
      assert IsFirstMissing(params, values, 0);
    }
  }

  // ---------------------------------------------------------------- a parameter that takes the rest

  /** What comes of a parameter `p` that takes the rest, with these positional tokens left. */
  ghost predicate TakesRest<V>(r: Progress<V>, p: Param<V>, named: map<string, string>, unused: seq<string>,
                               last: bool, c: Conversion<V>) {
    && (p.name in named ==>
          && r.Going? && r.left == [] && p.name in r.values
          && r.values[p.name] == c.text(Join([named[p.name]] + unused, ' ')))
    && (p.name !in named && unused != [] ==>
          && r.Going? && r.left == [] && p.name in r.values
          && r.values[p.name] == c.text(Join(unused, ' ')))
    && (p.name !in named && unused == [] && !p.required && last ==>
          && r.Going? && r.left == [] && p.name in r.values && r.values[p.name] == p.default)
    && (p.name !in named && unused == [] && p.required ==> r == Stopped(Missing(p.name)))
  }

  /** A parameter that takes the rest gets its token and all positional tokens left,
      joined by blanks, whatever follows it; without any token it is refused if
      it is required, and gets its default otherwise. */
  lemma {:induction false} RestSays<V>(params: seq<Param<V>>, named: map<string, string>, left: seq<string>,
                                       values: map<string, V>, c: Conversion<V>, i: nat)
    requires i < |params| && params[i].rest && forall j :: 0 <= j < i ==> !params[j].rest
    requires forall j {:trigger ValueFor(params, named, left, j, c)} ::
      0 <= j < i ==> ValueFor(params, named, left, j, c).Some?
    ensures TakesRest(BindAll(params, named, left, values, c), params[i], named,
                      LeftOver(left, Unnamed(params, named, i)), i == |params| - 1, c)
    decreases |params|
  {
    if i == 0 {
      RestAtHead(params, named, left, values, c);
    } else {
      BindOne(params, named, left, values, c);
      var rest := Rest(params[0], named, left);
      assert ValueFor(params, named, left, 0, c).Some?;
      forall j | 0 <= j < i - 1 ensures ValueFor(params[1..], named, rest, j, c).Some? {
        ValueShift(params, named, left, j + 1, c);
        assert ValueFor(params, named, left, j + 1, c).Some?;
      }
      RestSays(params[1..], named, rest, values[params[0].name := ValueFor(params, named, left, 0, c).value], c, i - 1);
      assert LeftOver(rest, Unnamed(params[1..], named, i - 1)) == LeftOver(left, Unnamed(params, named, i));
    }
  }

  lemma RestAtHead<V>(params: seq<Param<V>>, named: map<string, string>, left: seq<string>, values: map<string, V>,
                      c: Conversion<V>)
    requires params != [] && params[0].rest
    ensures TakesRest(BindAll(params, named, left, values, c), params[0], named, LeftOver(left, 0), |params| == 1, c)
  {
    if left != [] {
      assert [left[0]] + left[1..] == left && left[0..] == left;
    }
  }
}

/** Loading all enabled plugins in order: what the shared command table looks
    like afterwards, also when some plugins fail half way. */
module PluginLoading {
  import opened Manifests
  import opened CommandTable
  import opened DependencyOrder
  import opened Options

  /** One batch load: the order, the manifests and the precomputed resolution. */
  datatype Setup = Setup(order: seq<string>, manifests: ManifestMap, actions: map<string, map<string, Action>>) {

    ghost predicate Valid() {
      && (forall p :: p in order ==> p in manifests && p in actions && p != "")
      && (forall i, j :: 0 <= i < j < |order| ==> order[i] != order[j])
      && (forall p {:trigger IsResolution(order, manifests, p, actions[p])} ::
            p in order ==> IsResolution(order, manifests, p, actions[p]))
    }

    function Commands(p: string): seq<CommandDecl>
      requires p in manifests
    {
      manifests[p].AllCommands()
    }

    function Features(p: string): seq<Feature>
      requires p in manifests
    {
      manifests[p].EffectiveFeatures()
    }

    /** Plugin `p` registers a command whose effective name is `x`. */
    ghost predicate Owns(p: string, x: string) {
      && p in order && p in manifests && p in actions
      && exists c :: c in Commands(p) && ActionOf(actions[p], c) != Skip && Effective(p, actions[p], c) == x
    }

    /** Plugin `p` lists `x` as an alias of a command it does not skip. */
    ghost predicate Aliases(p: string, x: string) {
      && p in order && p in manifests && p in actions
      && exists c :: c in Commands(p) && ActionOf(actions[p], c) != Skip && x in c.aliases
    }

    ghost predicate Renames(p: string, c: CommandDecl) {
      p in order && p in manifests && p in actions && c in Commands(p) && ActionOf(actions[p], c) == Rename
    }

    /** No effective command name belongs to two plugins. */
    ghost predicate NamesSeparate() {
      forall p, q, x {:trigger Owns(p, x), Owns(q, x)} :: Owns(p, x) && Owns(q, x) ==> p == q
    }

    /** No generated `plugin.command` name is declared by, or generated for, another plugin. */
    ghost predicate GeneratedSeparate() {
      && (forall p, q, c :: p != q && Renames(p, c) && q in order && q in manifests
            ==> p + "." + c.name !in Declared(manifests[q]))
      && (forall p, q, c, d :: p != q && Renames(p, c) && Renames(q, d)
            ==> p + "." + c.name != q + "." + d.name)
    }

    ghost predicate Unowned(x: string) {
      forall p :: !Owns(p, x)
    }

    /** The first of the first `k` plugins that has been loaded and lists the alias `x`. */
    ghost function FirstAlias(k: nat, loaded: set<string>, x: string): Option<string>
      requires k <= |order|
    {
      if k == 0 then None
      else
        var earlier := FirstAlias(k - 1, loaded, x);
        if earlier.Some? then earlier
        else if order[k - 1] in loaded && Aliases(order[k - 1], x) then Some(order[k - 1]) else None
    }
  }

  lemma DeclaredHasName(m: Manifest, c: CommandDecl)
    requires c in m.AllCommands()
    ensures DeclNames(c) <= Declared(m)
  {
  }

  lemma KeepMeansKeeper(s: Setup, p: string, c: CommandDecl)
    requires s.Valid() && p in s.order && c in s.Commands(p) && ActionOf(s.actions[p], c) == Keep
    ensures Keeper(s.order, s.manifests, c.name) == Some(p)
  {
    assert IsResolution(s.order, s.manifests, p, s.actions[p]);
    assert c.name in s.actions[p];
  }

  /** Resolution settles all clashes but those of generated names: when these are
      separate, no effective name belongs to two plugins. */
  lemma GeneratedSuffice(s: Setup)
    requires s.Valid() && s.GeneratedSeparate()
    ensures s.NamesSeparate()
  {
    forall p, q, x {:trigger s.Owns(p, x), s.Owns(q, x)} | s.Owns(p, x) && s.Owns(q, x) ensures p == q {
      OneOwner(s, p, q, x);
    }
  }

  lemma OneOwner(s: Setup, p: string, q: string, x: string)
    requires s.Valid() && s.GeneratedSeparate() && s.Owns(p, x) && s.Owns(q, x)
    ensures p == q
  {
    var c :| c in s.Commands(p) && ActionOf(s.actions[p], c) != Skip && Effective(p, s.actions[p], c) == x;
    var d :| d in s.Commands(q) && ActionOf(s.actions[q], d) != Skip && Effective(q, s.actions[q], d) == x;
    DeclaredHasName(s.manifests[p], c);
    DeclaredHasName(s.manifests[q], d);
    if ActionOf(s.actions[p], c) == Keep && ActionOf(s.actions[q], d) == Keep {
      KeepMeansKeeper(s, p, c);
      KeepMeansKeeper(s, q, d);
    } else if p != q {
      if ActionOf(s.actions[p], c) == Rename { assert s.Renames(p, c); }
      if ActionOf(s.actions[q], d) == Rename { assert s.Renames(q, d); }
    }
  }

  /** Plugin names without a dot generate different names. */
  lemma {:induction false} DotFreeNamesSeparate(p: string, q: string, x: string, y: string)
    requires p != q && '.' !in p && '.' !in q
    ensures p + "." + x != q + "." + y
  {
    if p != [] && q != [] && p + "." + x == q + "." + y {
      assert (p + "." + x)[0] == p[0] && (q + "." + y)[0] == q[0];
      assert (p + "." + x)[1..] == p[1..] + "." + x && (q + "." + y)[1..] == q[1..] + "." + y;
      DotFreeNamesSeparate(p[1..], q[1..], x, y);
    } else if p == [] {
      assert (p + "." + x)[0] == '.' && (q != [] ==> (q + "." + y)[0] == q[0]);
    } else if q == [] {
      assert (q + "." + y)[0] == '.' && (p + "." + x)[0] == p[0];
    }
  }

  // ---------------------------------------------------------------- one plugin

  /** What has been registered for plugin `q` on top of `start` once the
      commands `done` have been handled. */
  ghost predicate Registering(start: Registry, q: string, actions: map<string, Action>, claims: map<string, string>,
                              done: seq<CommandDecl>, pr: Progress) {
    && Framed(start, pr)
    && (forall x {:trigger Placed(q, actions, claims, done, pr, x)} ::
          x in pr.registered ==> Placed(q, actions, claims, done, pr, x))
    && (forall c {:trigger Covered(q, actions, claims, pr, c)} ::
          c in done && ActionOf(actions, c) != Skip ==> Covered(q, actions, claims, pr, c))
    && (q !in start.byPlugin ==> NamesOf(pr.reg, q) == pr.registered && pr.reg.byPlugin - {q} == start.byPlugin)
  }

  /** The table holds the earlier names and the registered ones; the former are unchanged. */
  ghost predicate Framed(start: Registry, pr: Progress) {
    && pr.reg.commands.Keys == start.commands.Keys + pr.registered
    && forall x :: x in start.commands && x !in pr.registered ==> pr.reg.commands[x] == start.commands[x]
  }

  ghost predicate Placed(q: string, actions: map<string, Action>, claims: map<string, string>,
                         done: seq<CommandDecl>, pr: Progress, x: string) {
    && x in pr.reg.commands
    && var cmd := pr.reg.commands[x];
    && cmd.plugin == q && x in Names(cmd) && Names(cmd) <= pr.registered
    && cmd.name in pr.reg.commands && pr.reg.commands[cmd.name] == cmd
    && exists c :: c in done && ActionOf(actions, c) != Skip && Effective(q, actions, c) == cmd.name
                && cmd.aliases <= KeptAliases(q, claims, c)
  }

  ghost predicate Covered(q: string, actions: map<string, Action>, claims: map<string, string>,
                          pr: Progress, c: CommandDecl) {
    var x := Effective(q, actions, c);
    x in pr.registered && x in pr.reg.commands && pr.reg.commands[x].name == x
    && KeptAliases(q, claims, c) <= pr.registered
  }

  lemma SkipKeeps(start: Registry, q: string, actions: map<string, Action>, claims: map<string, string>,
                  done: seq<CommandDecl>, pr: Progress, c: CommandDecl)
    requires Registering(start, q, actions, claims, done, pr) && ActionOf(actions, c) == Skip
    ensures Registering(start, q, actions, claims, done + [c], pr)
  {
    forall x | x in pr.registered ensures Placed(q, actions, claims, done + [c], pr, x) {
      assert Placed(q, actions, claims, done, pr, x);
    }
    forall d | d in done + [c] && ActionOf(actions, d) != Skip ensures Covered(q, actions, claims, pr, d) {
      assert d in done;
    }
  }

  /** Entering a command under fresh names leaves the earlier ones in place. */
  lemma EnterPlaces(q: string, actions: map<string, Action>, claims: map<string, string>,
                    done: seq<CommandDecl>, pr: Progress, c: CommandDecl, next: Progress, x: string)
    requires ActionOf(actions, c) != Skip
    requires next == Entered(q, actions, claims, pr, c)
    requires Names(CommandFor(q, actions, claims, c)) !! pr.registered
    requires x in pr.registered ==> Placed(q, actions, claims, done, pr, x)
    requires x in next.registered
    ensures Placed(q, actions, claims, done + [c], next, x)
  {
    if x !in pr.registered {
      assert c in done + [c];
    }
  }

  lemma EnterCovers(q: string, actions: map<string, Action>, claims: map<string, string>,
                    pr: Progress, c: CommandDecl, next: Progress, d: CommandDecl)
    requires next == Entered(q, actions, claims, pr, c)
    requires Names(CommandFor(q, actions, claims, c)) !! pr.registered
    requires d == c || Covered(q, actions, claims, pr, d)
    ensures Covered(q, actions, claims, next, d)
  {
  }

  function CommandFor(q: string, actions: map<string, Action>, claims: map<string, string>, c: CommandDecl): Command {
    Command(Effective(q, actions, c), KeptAliases(q, claims, c), q)
  }

  function Entered(q: string, actions: map<string, Action>, claims: map<string, string>, pr: Progress,
                   c: CommandDecl): Progress {
    var cmd := CommandFor(q, actions, claims, c);
    Progress(Enter(pr.reg, cmd), pr.registered + {cmd.name} + cmd.aliases)
  }

  lemma EnterFrame(start: Registry, q: string, actions: map<string, Action>, claims: map<string, string>,
                   pr: Progress, c: CommandDecl, next: Progress)
    requires next == Entered(q, actions, claims, pr, c)
    requires Framed(start, pr)
    ensures Framed(start, next)
  {
  }

  lemma EnterKeeps(start: Registry, q: string, actions: map<string, Action>, claims: map<string, string>,
                   done: seq<CommandDecl>, pr: Progress, c: CommandDecl, next: Progress)
    requires q != "" && Registering(start, q, actions, claims, done, pr) && ActionOf(actions, c) != Skip
    requires Effective(q, actions, c) !in pr.registered && c.aliases * pr.registered == {}
    requires next == Entered(q, actions, claims, pr, c)
    ensures Registering(start, q, actions, claims, done + [c], next)
  {
    assert Names(CommandFor(q, actions, claims, c)) !! pr.registered by {
      assert forall a :: a in c.aliases && a in pr.registered ==> a in c.aliases * pr.registered;
    }
    EnterFrame(start, q, actions, claims, pr, c, next);
    forall x | x in next.registered ensures Placed(q, actions, claims, done + [c], next, x) {
      assert x in pr.registered ==> Placed(q, actions, claims, done, pr, x);
      EnterPlaces(q, actions, claims, done, pr, c, next, x);
    }
    forall d | d in done + [c] && ActionOf(actions, d) != Skip ensures Covered(q, actions, claims, next, d) {
      assert d == c || Covered(q, actions, claims, pr, d);
      EnterCovers(q, actions, claims, pr, c, next, d);
    }
    if q !in start.byPlugin {
      EnterRecords(start, q, actions, claims, pr, c, next);
    }
  }

  lemma EnterRecords(start: Registry, q: string, actions: map<string, Action>, claims: map<string, string>,
                     pr: Progress, c: CommandDecl, next: Progress)
    requires q != "" && next == Entered(q, actions, claims, pr, c)
    requires NamesOf(pr.reg, q) == pr.registered && pr.reg.byPlugin - {q} == start.byPlugin
    ensures NamesOf(next.reg, q) == next.registered && next.reg.byPlugin - {q} == start.byPlugin
  {
    assert next.reg.byPlugin - {q} == pr.reg.byPlugin - {q};
  }

  /** A registration keeps its record straight, whether it runs to the end or raises. */
  lemma {:induction false} RegisterAllKeeps(start: Registry, q: string, actions: map<string, Action>,
                                            claims: map<string, string>, cs: seq<CommandDecl>)
      returns (n: nat)
    requires q != ""
    ensures var o := RegisterAll(Progress(start, {}), q, actions, claims, cs);
      && n <= |cs| && (o.Done? ==> n == |cs|)
      && Registering(start, q, actions, claims, cs[..n], o.progress)
    decreases |cs|
  {
    var pr := Progress(start, {});
    if cs == [] {
      n := 0;
      if q !in start.byPlugin { assert start.byPlugin - {q} == start.byPlugin; }
    } else {
      var init, c := cs[..|cs| - 1], cs[|cs| - 1];
      assert cs == init + [c];
      n := RegisterAllKeeps(start, q, actions, claims, init);
      assert init[..n] == cs[..n];
      RegisterAllAppend(pr, q, actions, claims, init, [c]);
      var o := RegisterAll(pr, q, actions, claims, init);
      if o.Done? {
        assert init[..n] == init;
        n := LastStepKeeps(start, q, actions, claims, init, o.progress, c);
        assert cs[..|cs|] == cs;
      }
    }
  }

  lemma LastStepKeeps(start: Registry, q: string, actions: map<string, Action>, claims: map<string, string>,
                      init: seq<CommandDecl>, pr: Progress, c: CommandDecl) returns (n: nat)
    requires q != "" && Registering(start, q, actions, claims, init, pr)
    ensures var o := RegisterAll(pr, q, actions, claims, [c]);
      && n <= |init| + 1 && (o.Done? ==> n == |init| + 1)
      && Registering(start, q, actions, claims, (init + [c])[..n], o.progress)
  {
    var next := RegisterNext(pr, q, actions, claims, c);
    assert (init + [c])[..|init|] == init && (init + [c])[..|init| + 1] == init + [c];
    if next.Raised? {
      n := |init|;
    } else {
      n := |init| + 1;
      if ActionOf(actions, c) == Skip {
        SkipKeeps(start, q, actions, claims, init, pr, c);
      } else {
        EnterKeeps(start, q, actions, claims, init, pr, c, next.progress);
      }
    }
  }

  /** The same for a registration feature by feature, where tasks and listeners may raise as well. */
  lemma RegisterFeaturesKeeps(start: Registry, q: string, actions: map<string, Action>,
                              claims: map<string, string>, features: seq<Feature>)
      returns (n: nat)
    requires q != ""
    ensures var o := RegisterFeatures(Progress(start, {}), q, actions, claims, features);
      && n <= |Flatten(features)| && (o.Done? ==> n == |Flatten(features)|)
      && Registering(start, q, actions, claims, Flatten(features)[..n], o.progress)
  {
    FeaturesAreList(Progress(start, {}), q, actions, claims, features);
    ReachedPrefix(features);
    n := RegisterAllKeeps(start, q, actions, claims, Reached(features));
    assert Reached(features)[..n] == Flatten(features)[..n];
  }

  predicate IsSkipped(actions: map<string, Action>, c: CommandDecl) {
    c.name in actions && actions[c.name] == Skip
  }

  /** The command is told to go by `x`, or lists `x` as an alias that nobody else claims. */
  predicate Occupies(q: string, actions: map<string, Action>, claims: map<string, string>, c: CommandDecl, x: string) {
    !IsSkipped(actions, c)
    && (GoesUnder(q, actions, c, x) || (x in c.aliases && (x in claims ==> claims[x] == q)))
  }

  predicate GoesUnder(q: string, actions: map<string, Action>, c: CommandDecl, x: string) {
    (x == c.name && !(c.name in actions && actions[c.name] == Rename))
    || (x == q + "." + c.name && c.name in actions && actions[c.name] == Rename)
  }

  /** What a registration that ran to the end has put into the table. */
  lemma RegisteredIs(start: Registry, q: string, actions: map<string, Action>, claims: map<string, string>,
                     cs: seq<CommandDecl>, x: string)
    requires q != "" && RegisterAll(Progress(start, {}), q, actions, claims, cs).Done?
    ensures x in RegisterAll(Progress(start, {}), q, actions, claims, cs).progress.registered
       <==> exists c :: c in cs && Occupies(q, actions, claims, c, x)
  {
    var pr := RegisterAll(Progress(start, {}), q, actions, claims, cs).progress;
    var n := RegisterAllKeeps(start, q, actions, claims, cs);
    assert cs[..n] == cs;
    if x in pr.registered {
      assert Placed(q, actions, claims, cs, pr, x);
      var cmd := pr.reg.commands[x];
      var c :| c in cs && ActionOf(actions, c) != Skip && Effective(q, actions, c) == cmd.name
            && cmd.aliases <= KeptAliases(q, claims, c);
      assert Occupies(q, actions, claims, c, x);
    }
    if c :| c in cs && Occupies(q, actions, claims, c, x) {
      assert Covered(q, actions, claims, pr, c);
      assert x in c.aliases && (x in claims ==> claims[x] == q) ==> x in KeptAliases(q, claims, c);
    }
  }

  /** No two commands clash: what an earlier one puts into the table is neither the
      name nor an alias of a later one. */
  ghost predicate NoClash(q: string, actions: map<string, Action>, claims: map<string, string>, cs: seq<CommandDecl>) {
    forall i, j, x {:trigger Occupies(q, actions, claims, cs[i], x), cs[j]} ::
      0 <= i < j < |cs| && !IsSkipped(actions, cs[j]) && Occupies(q, actions, claims, cs[i], x) ==>
        !GoesUnder(q, actions, cs[j], x) && x !in cs[j].aliases
  }

  ghost predicate HandlersFound(actions: map<string, Action>, cs: seq<CommandDecl>) {
    forall c :: c in cs && !IsSkipped(actions, c) ==> c.handlerFound
  }

  lemma LastStepIff(start: Registry, q: string, actions: map<string, Action>, claims: map<string, string>,
                    init: seq<CommandDecl>, c: CommandDecl)
    requires q != "" && RegisterAll(Progress(start, {}), q, actions, claims, init).Done?
    ensures var pr := RegisterAll(Progress(start, {}), q, actions, claims, init).progress;
      RegisterNext(pr, q, actions, claims, c).Done? <==>
      IsSkipped(actions, c)
      || (c.handlerFound && forall d, x :: d in init && Occupies(q, actions, claims, d, x) ==>
            !GoesUnder(q, actions, c, x) && x !in c.aliases)
  {
    var pr := RegisterAll(Progress(start, {}), q, actions, claims, init).progress;
    forall x ensures x in pr.registered <==> exists d :: d in init && Occupies(q, actions, claims, d, x) {
      RegisteredIs(start, q, actions, claims, init, x);
    }
    assert forall x :: GoesUnder(q, actions, c, x) <==> x == Effective(q, actions, c);
    assert c.aliases * pr.registered != {} <==> exists x :: x in c.aliases && x in pr.registered by {
      if x :| x in c.aliases * pr.registered { assert x in c.aliases && x in pr.registered; }
      if x :| x in c.aliases && x in pr.registered { assert x in c.aliases * pr.registered; }
    }
  }

  /** The commands of a plugin register exactly when the handlers of all that are not
      skipped are found and no two of these clash. */
  lemma {:induction false} RegistersIff(start: Registry, q: string, actions: map<string, Action>,
                                        claims: map<string, string>, cs: seq<CommandDecl>)
    requires q != ""
    ensures RegisterAll(Progress(start, {}), q, actions, claims, cs).Done?
       <==> HandlersFound(actions, cs) && NoClash(q, actions, claims, cs)
    decreases |cs|
  {
    if cs != [] {
      var init, c := cs[..|cs| - 1], cs[|cs| - 1];
      assert cs == init + [c];
      RegistersIff(start, q, actions, claims, init);
      RegisterAllAppend(Progress(start, {}), q, actions, claims, init, [c]);
      var o := RegisterAll(Progress(start, {}), q, actions, claims, init);
      if o.Done? {
        LastStepIff(start, q, actions, claims, init, c);
        assert RegisterAll(o.progress, q, actions, claims, [c]).Done? <==>
          RegisterNext(o.progress, q, actions, claims, c).Done?;
      }
      ClashSnoc(q, actions, claims, init, c);
    }
  }

  lemma ClashSnoc(q: string, actions: map<string, Action>, claims: map<string, string>,
                  init: seq<CommandDecl>, c: CommandDecl)
    ensures NoClash(q, actions, claims, init + [c]) <==>
      NoClash(q, actions, claims, init)
      && (IsSkipped(actions, c)
          || forall d, x :: d in init && Occupies(q, actions, claims, d, x) ==>
               !GoesUnder(q, actions, c, x) && x !in c.aliases)
    ensures HandlersFound(actions, init + [c]) <==>
      HandlersFound(actions, init) && (IsSkipped(actions, c) || c.handlerFound)
  {
    var all := init + [c];
    assert forall d :: d in all <==> d in init || d == c;
    if NoClash(q, actions, claims, all) {
      assert NoClash(q, actions, claims, init) by {
        forall i, j, x | 0 <= i < j < |init| && !IsSkipped(actions, init[j]) && Occupies(q, actions, claims, init[i], x)
          ensures !GoesUnder(q, actions, init[j], x) && x !in init[j].aliases
        {
          assert Occupies(q, actions, claims, all[i], x) && all[j] == init[j];
        }
      }
      if !IsSkipped(actions, c) {
        forall d, x | d in init && Occupies(q, actions, claims, d, x)
          ensures !GoesUnder(q, actions, c, x) && x !in c.aliases
        {
          var i :| 0 <= i < |init| && init[i] == d;
          assert Occupies(q, actions, claims, all[i], x) && all[|init|] == c;
        }
      }
    }
  }

  /** A plugin registers exactly when, besides, no task or listener raises. */
  lemma FeaturesRegisterIff(start: Registry, q: string, actions: map<string, Action>, claims: map<string, string>,
                            features: seq<Feature>)
    requires q != ""
    ensures RegisterFeatures(Progress(start, {}), q, actions, claims, features).Done? <==>
      && HandlersFound(actions, Flatten(features)) && NoClash(q, actions, claims, Flatten(features))
      && forall f :: f in features ==> f.extras != ExtrasRaise
  {
    FeaturesAreList(Progress(start, {}), q, actions, claims, features);
    ReachedPrefix(features);
    RegistersIff(start, q, actions, claims, Flatten(features));
    assert ExtrasHold(features) <==> forall f :: f in features ==> f.extras != ExtrasRaise;
  }

  /** Unregistering a plugin straight after registering it removes its names and nothing else. */
  lemma UnregisterExactly(start: Registry, q: string, actions: map<string, Action>, claims: map<string, string>,
                          done: seq<CommandDecl>, pr: Progress, after: Registry)
    requires Registering(start, q, actions, claims, done, pr) && q !in start.byPlugin
    requires Unregistered(pr.reg, after, q)
    ensures after == Registry(start.commands - pr.registered, start.byPlugin)
  {
    assert AliasesUnder(pr.reg, pr.registered) <= pr.registered by {
      forall n, a | n in pr.registered && n in pr.reg.commands && a in pr.reg.commands[n].aliases
        ensures a in pr.registered
      {
        assert Placed(q, actions, claims, done, pr, n);
      }
    }
    assert after.commands == start.commands - pr.registered;
  }

  /** However far loading got, unloading leaves the table without the names that
      were registered, so it restores the table exactly when none was taken. */
  lemma UnloadUndoes(start: Registry, q: string, actions: map<string, Action>, claims: map<string, string>,
                     features: seq<Feature>, after: Registry)
    requires q != "" && q !in start.byPlugin
    requires Unregistered(RegisterFeatures(Progress(start, {}), q, actions, claims, features).progress.reg, after, q)
    ensures after == start <==>
      RegisterFeatures(Progress(start, {}), q, actions, claims, features).progress.registered !! start.commands.Keys
  {
    var pr := RegisterFeatures(Progress(start, {}), q, actions, claims, features).progress;
    var n := RegisterFeaturesKeeps(start, q, actions, claims, features);
    UnregisterExactly(start, q, actions, claims, Flatten(features)[..n], pr, after);
    if pr.registered !! start.commands.Keys {
      assert start.commands - pr.registered == start.commands;
    } else {
      var x :| x in pr.registered && x in start.commands.Keys;
      assert x !in after.commands;
    }
  }

  /** A command of the plugin takes a name that is in the table. */
  ghost predicate TakesOver(start: Registry, q: string, actions: map<string, Action>, claims: map<string, string>,
                            c: CommandDecl) {
    && ActionOf(actions, c) != Skip
    && (Effective(q, actions, c) in start.commands || exists a :: a in KeptAliases(q, claims, c) && a in start.commands)
  }

  lemma RegisteredIsDeclared(start: Registry, q: string, actions: map<string, Action>, claims: map<string, string>,
                             cs: seq<CommandDecl>, pr: Progress)
    requires Registering(start, q, actions, claims, cs, pr)
    ensures pr.registered !! start.commands.Keys <==> forall c :: c in cs ==> !TakesOver(start, q, actions, claims, c)
  {
    if c :| c in cs && TakesOver(start, q, actions, claims, c) {
      assert Covered(q, actions, claims, pr, c);
    }
    if x :| x in pr.registered && x in start.commands {
      assert Placed(q, actions, claims, cs, pr, x);
      var cmd := pr.reg.commands[x];
      var c :| c in cs && ActionOf(actions, c) != Skip && Effective(q, actions, c) == cmd.name
            && cmd.aliases <= KeptAliases(q, claims, c);
      assert TakesOver(start, q, actions, claims, c);
    }
  }

  /** Loading a plugin and unloading it again restores the table exactly when no
      command it does not skip goes by an effective name, or keeps an alias,
      that was in the table before. */
  lemma UnloadRestoresIff(start: Registry, q: string, actions: map<string, Action>, claims: map<string, string>,
                          features: seq<Feature>, after: Registry)
    requires q != "" && q !in start.byPlugin
    requires var o := RegisterFeatures(Progress(start, {}), q, actions, claims, features);
      o.Done? && Unregistered(o.progress.reg, after, q)
    ensures after == start <==> forall c :: c in Flatten(features) ==> !TakesOver(start, q, actions, claims, c)
  {
    var pr := RegisterFeatures(Progress(start, {}), q, actions, claims, features).progress;
    var n := RegisterFeaturesKeeps(start, q, actions, claims, features);
    assert Flatten(features)[..n] == Flatten(features);
    RegisteredIsDeclared(start, q, actions, claims, Flatten(features), pr);
    UnloadUndoes(start, q, actions, claims, features, after);
  }

  /** Unloading a plugin takes away its own names only, exactly when each name
      recorded for it that is still in the table leads to one of its commands. */
  lemma UnloadSparesOthersIff(before: Registry, after: Registry, p: string)
    requires Unregistered(before, after, p)
    requires forall n :: n in before.commands && before.commands[n].plugin == p
               ==> before.commands[n].aliases <= NamesOf(before, p)
    ensures (forall x :: x in before.commands && x !in after.commands ==> before.commands[x].plugin == p)
       <==> (forall n :: n in NamesOf(before, p) && n in before.commands ==> before.commands[n].plugin == p)
  {
    if forall n :: n in NamesOf(before, p) && n in before.commands ==> before.commands[n].plugin == p {
      assert AliasesUnder(before, NamesOf(before, p)) <= NamesOf(before, p);
    }
  }

  // ---------------------------------------------------------------- the whole table

  /** The table after the first `k` plugins, of which `loaded` succeeded. */
  ghost predicate TableInv(s: Setup, k: nat, loaded: set<string>, reg: Registry)
    requires k <= |s.order|
  {
    && (forall p :: p in loaded ==> p in s.order[..k])
    && reg.byPlugin.Keys <= loaded
    && (forall p, x {:trigger HeldBy(reg, x, p)} :: p in loaded && s.Owns(p, x) ==> HeldBy(reg, x, p))
    && (forall x {:trigger WellPlaced(s, loaded, reg, x)} :: x in reg.commands ==> WellPlaced(s, loaded, reg, x))
    && (forall x {:trigger AliasRight(s, k, loaded, reg, x)} :: s.Unowned(x) ==> AliasRight(s, k, loaded, reg, x))
    && (forall x, a :: x in reg.commands && a in reg.commands[x].aliases && s.Unowned(a) ==> a in reg.commands)
  }

  /** `x` leads to the command of `p` that is registered under `x`. */
  ghost predicate HeldBy(reg: Registry, x: string, p: string) {
    x in reg.commands && reg.commands[x].plugin == p && reg.commands[x].name == x
  }

  ghost predicate WellPlaced(s: Setup, loaded: set<string>, reg: Registry, x: string)
    requires x in reg.commands
  {
    var c := reg.commands[x];
    && c.plugin in loaded && x in Names(c)
    && c.name in reg.commands && reg.commands[c.name] == c
    && s.Owns(c.plugin, c.name)
  }

  /** An alias that is nobody's command name leads to the first loaded plugin listing it. */
  ghost predicate AliasRight(s: Setup, k: nat, loaded: set<string>, reg: Registry, x: string)
    requires k <= |s.order|
  {
    var first := s.FirstAlias(k, loaded, x);
    && (x in reg.commands <==> first.Some?)
    && (x in reg.commands ==> reg.commands[x].plugin == first.value)
  }

  /** One round of the loading loop for plugin number `k`: the module may fail to
      import, registration may raise, and in both cases the plugin is unregistered again. */
  ghost predicate LoadRound(s: Setup, k: nat, before: Registry, after: Registry, imports: bool, ok: bool)
    requires k < |s.order| && s.order[k] in s.manifests && s.order[k] in s.actions
  {
    var q := s.order[k];
    if !imports then !ok && Unregistered(before, after, q)
    else exists winners, claims ::
      ClaimsOf(before.commands, winners, claims) && LoadWith(s, q, claims, before, after, ok)
  }

  ghost predicate LoadWith(s: Setup, q: string, claims: map<string, string>, before: Registry, after: Registry,
                           ok: bool)
    requires q in s.manifests && q in s.actions
  {
    var o := RegisterFeatures(Progress(before, {}), q, s.actions[q], claims, s.Features(q));
    if o.Done? then ok && after == o.progress.reg else !ok && Unregistered(o.progress.reg, after, q)
  }

  /** Every name in the table has a claim, and it is not `q`'s. */
  lemma ClaimsCoverTable(s: Setup, k: nat, loaded: set<string>, reg: Registry,
                         winners: map<string, string>, claims: map<string, string>, q: string)
    requires k <= |s.order| && TableInv(s, k, loaded, reg) && ClaimsOf(reg.commands, winners, claims) && q !in loaded
    ensures forall x :: x in reg.commands ==> x in claims
    ensures forall x :: x in claims ==> claims[x] != q
    ensures forall x :: x in claims && s.Unowned(x) ==> x in reg.commands
  {
    forall x | x in reg.commands ensures x in claims {
      ClaimCoversName(s, k, loaded, reg, winners, claims, x);
    }
    forall x | x in claims ensures claims[x] != q && (s.Unowned(x) ==> x in reg.commands) {
      ClaimOwner(s, k, loaded, reg, winners, claims, x);
    }
  }

  lemma ClaimCoversName(s: Setup, k: nat, loaded: set<string>, reg: Registry,
                        winners: map<string, string>, claims: map<string, string>, x: string)
    requires k <= |s.order| && TableInv(s, k, loaded, reg) && ClaimsOf(reg.commands, winners, claims)
    requires x in reg.commands
    ensures x in claims
  {
    assert WellPlaced(s, loaded, reg, x);
    var m := winners[reg.commands[x].name];
    assert WellPlaced(s, loaded, reg, m);
    assert reg.commands[m] == reg.commands[x];
  }

  lemma ClaimOwner(s: Setup, k: nat, loaded: set<string>, reg: Registry,
                   winners: map<string, string>, claims: map<string, string>, x: string)
    requires k <= |s.order| && TableInv(s, k, loaded, reg) && ClaimsOf(reg.commands, winners, claims)
    requires x in claims
    ensures claims[x] in loaded
    ensures s.Unowned(x) ==> x in reg.commands
  {
    assert Backed(reg.commands, winners, claims, x);
    var c :| c in winners && x in Names(reg.commands[winners[c]]) && claims[x] == reg.commands[winners[c]].plugin;
    assert WellPlaced(s, loaded, reg, winners[c]);
  }

  /** A name registered for `q` is a command name of `q` or an alias nobody had. */
  lemma RegisteredNames(s: Setup, k: nat, loaded: set<string>, reg: Registry, winners: map<string, string>,
                        claims: map<string, string>, q: string, done: seq<CommandDecl>, pr: Progress)
    requires s.Valid() && k <= |s.order| && TableInv(s, k, loaded, reg) && ClaimsOf(reg.commands, winners, claims)
    requires q !in loaded && q in s.order
    requires Registering(reg, q, s.actions[q], claims, done, pr)
    requires forall c :: c in done ==> c in s.Commands(q)
    ensures forall x :: x in pr.registered ==>
      s.Owns(q, x) || (s.Aliases(q, x) && x !in claims && x !in reg.commands)
    ensures forall x :: x in pr.registered ==> s.Owns(q, pr.reg.commands[x].name)
  {
    ClaimsCoverTable(s, k, loaded, reg, winners, claims, q);
    forall x | x in pr.registered
      ensures s.Owns(q, x) || (s.Aliases(q, x) && x !in claims && x !in reg.commands)
      ensures s.Owns(q, pr.reg.commands[x].name)
    {
      assert Placed(q, s.actions[q], claims, done, pr, x);
      var cmd := pr.reg.commands[x];
      var c :| c in done && ActionOf(s.actions[q], c) != Skip && Effective(q, s.actions[q], c) == cmd.name
            && cmd.aliases <= KeptAliases(q, claims, c);
      assert s.Owns(q, cmd.name);
      if x != cmd.name {
        assert s.Aliases(q, x);
      }
    }
  }

  lemma {:induction false} FirstAliasFrame(s: Setup, k: nat, loaded: set<string>, q: string, x: string)
    requires k <= |s.order| && q !in s.order[..k]
    ensures s.FirstAlias(k, loaded + {q}, x) == s.FirstAlias(k, loaded, x)
  {
    if k > 0 {
      assert s.order[k - 1] in s.order[..k];
      assert forall p :: p in s.order[..k - 1] ==> p in s.order[..k];
      FirstAliasFrame(s, k - 1, loaded, q, x);
    }
  }

  lemma NextIsNew(s: Setup, k: nat, loaded: set<string>)
    requires s.Valid() && k < |s.order| && forall p :: p in loaded ==> p in s.order[..k]
    ensures s.order[k] !in s.order[..k] && s.order[k] !in loaded && s.order[k] in s.order
    ensures forall p :: p in s.order[..k] ==> p in s.order[..k + 1]
    ensures s.order[k] in s.order[..k + 1]
  {
    assert s.order[..k + 1] == s.order[..k] + [s.order[k]];
  }

  lemma LoadKeepsHeld(s: Setup, k: nat, loaded: set<string>, reg: Registry, claims: map<string, string>, pr: Progress,
                      p: string, x: string)
    requires s.Valid() && s.NamesSeparate() && k < |s.order| && TableInv(s, k, loaded, reg)
    requires var q := s.order[k]; Registering(reg, q, s.actions[q], claims, s.Commands(q), pr)
    requires p in loaded + {s.order[k]} && s.Owns(p, x)
    requires forall y :: y in pr.registered ==> s.Owns(s.order[k], y) || y !in reg.commands
    ensures HeldBy(pr.reg, x, p)
  {
    var q := s.order[k];
    NextIsNew(s, k, loaded);
    if p == q {
      var c :| c in s.Commands(q) && ActionOf(s.actions[q], c) != Skip && Effective(q, s.actions[q], c) == x;
      assert Covered(q, s.actions[q], claims, pr, c);
      assert Placed(q, s.actions[q], claims, s.Commands(q), pr, x);
    } else {
      assert HeldBy(reg, x, p);
    }
  }

  lemma LoadKeepsAlias(s: Setup, k: nat, loaded: set<string>, reg: Registry, claims: map<string, string>,
                       pr: Progress, x: string)
    requires s.Valid() && k < |s.order| && TableInv(s, k, loaded, reg)
    requires var q := s.order[k]; Registering(reg, q, s.actions[q], claims, s.Commands(q), pr)
    requires s.Unowned(x)
    requires x in pr.registered ==> s.Aliases(s.order[k], x) && x !in reg.commands
    requires x in claims ==> x in reg.commands
    ensures AliasRight(s, k + 1, loaded + {s.order[k]}, pr.reg, x)
  {
    var q := s.order[k];
    NextIsNew(s, k, loaded);
    FirstAliasFrame(s, k, loaded, q, x);
    assert AliasRight(s, k, loaded, reg, x);
    if x in pr.registered {
      assert Placed(q, s.actions[q], claims, s.Commands(q), pr, x);
    } else if s.Aliases(q, x) {
      var c :| c in s.Commands(q) && ActionOf(s.actions[q], c) != Skip && x in c.aliases;
      assert Covered(q, s.actions[q], claims, pr, c);
      assert x in claims;
    }
  }

  lemma LoadKeepsPlaced(s: Setup, k: nat, loaded: set<string>, reg: Registry, claims: map<string, string>,
                        pr: Progress, x: string)
    requires s.Valid() && s.NamesSeparate() && k < |s.order| && TableInv(s, k, loaded, reg)
    requires var q := s.order[k]; Registering(reg, q, s.actions[q], claims, s.Commands(q), pr)
    requires forall y :: y in pr.registered ==> s.Owns(s.order[k], y) || y !in reg.commands
    requires x in pr.reg.commands
    requires x in pr.registered ==> s.Owns(s.order[k], pr.reg.commands[x].name)
    ensures WellPlaced(s, loaded + {s.order[k]}, pr.reg, x)
  {
    var q := s.order[k];
    NextIsNew(s, k, loaded);
    if x in pr.registered {
      assert Placed(q, s.actions[q], claims, s.Commands(q), pr, x);
    } else {
      assert WellPlaced(s, loaded, reg, x);
      var c := reg.commands[x];
      LoadKeepsHeld(s, k, loaded, reg, claims, pr, c.plugin, c.name);
      assert HeldBy(reg, c.name, c.plugin);
    }
  }

  lemma LoadSucceeds(s: Setup, k: nat, loaded: set<string>, reg: Registry, winners: map<string, string>,
                     claims: map<string, string>, pr: Progress)
    requires s.Valid() && s.NamesSeparate() && k < |s.order| && TableInv(s, k, loaded, reg)
    requires ClaimsOf(reg.commands, winners, claims)
    requires var q := s.order[k]; Registering(reg, q, s.actions[q], claims, s.Commands(q), pr)
    ensures TableInv(s, k + 1, loaded + {s.order[k]}, pr.reg)
  {
    var q := s.order[k];
    NextIsNew(s, k, loaded);
    ClaimsCoverTable(s, k, loaded, reg, winners, claims, q);
    RegisteredNames(s, k, loaded, reg, winners, claims, q, s.Commands(q), pr);
    var loaded' := loaded + {q};
    forall p, x | p in loaded' && s.Owns(p, x) ensures HeldBy(pr.reg, x, p) {
      LoadKeepsHeld(s, k, loaded, reg, claims, pr, p, x);
    }
    forall x | x in pr.reg.commands ensures WellPlaced(s, loaded', pr.reg, x) {
      LoadKeepsPlaced(s, k, loaded, reg, claims, pr, x);
    }
    forall x | s.Unowned(x) ensures AliasRight(s, k + 1, loaded', pr.reg, x) {
      LoadKeepsAlias(s, k, loaded, reg, claims, pr, x);
    }
    forall x, a | x in pr.reg.commands && a in pr.reg.commands[x].aliases && s.Unowned(a) ensures a in pr.reg.commands {
      LoadKeepsAliases(s, k, loaded, reg, claims, pr, x, a);
    }
    OneRecordMore(reg, pr.reg, q);
  }

  lemma OneRecordMore(before: Registry, after: Registry, q: string)
    requires after.byPlugin - {q} == before.byPlugin
    ensures after.byPlugin.Keys <= before.byPlugin.Keys + {q}
  {
    assert forall p :: p in after.byPlugin && p != q ==> p in after.byPlugin - {q};
  }

  lemma LoadKeepsAliases(s: Setup, k: nat, loaded: set<string>, reg: Registry, claims: map<string, string>,
                         pr: Progress,
                         x: string, a: string)
    requires s.Valid() && k < |s.order| && TableInv(s, k, loaded, reg)
    requires var q := s.order[k]; Registering(reg, q, s.actions[q], claims, s.Commands(q), pr)
    requires x in pr.reg.commands && a in pr.reg.commands[x].aliases && s.Unowned(a)
    ensures a in pr.reg.commands
  {
    var q := s.order[k];
    if x in pr.registered {
      assert Placed(q, s.actions[q], claims, s.Commands(q), pr, x);
    }
  }

  lemma StaysHeld(s: Setup, k: nat, loaded: set<string>, reg: Registry, after: Registry, gone: set<string>,
                  p: string, x: string)
    requires s.Valid() && s.NamesSeparate() && k < |s.order| && TableInv(s, k, loaded, reg)
    requires after == Registry(reg.commands - gone, reg.byPlugin)
    requires forall x :: x in gone ==> s.Owns(s.order[k], x) || x !in reg.commands
    requires p in loaded && s.Owns(p, x)
    ensures HeldBy(after, x, p)
  {
    NextIsNew(s, k, loaded);
    assert HeldBy(reg, x, p);
  }

  lemma LoadFails(s: Setup, k: nat, loaded: set<string>, reg: Registry, after: Registry, gone: set<string>)
    requires s.Valid() && s.NamesSeparate() && k < |s.order| && TableInv(s, k, loaded, reg)
    requires after == Registry(reg.commands - gone, reg.byPlugin)
    requires forall x :: x in gone ==> s.Owns(s.order[k], x) || x !in reg.commands
    ensures TableInv(s, k + 1, loaded, after)
  {
    NextIsNew(s, k, loaded);
    forall p, x | p in loaded && s.Owns(p, x) ensures HeldBy(after, x, p) {
      StaysHeld(s, k, loaded, reg, after, gone, p, x);
    }
    forall x | x in after.commands ensures WellPlaced(s, loaded, after, x) {
      StaysPlaced(s, k, loaded, reg, after, gone, x);
    }
    forall x | s.Unowned(x) ensures AliasRight(s, k + 1, loaded, after, x) {
      StaysRight(s, k, loaded, reg, after, gone, x);
    }
    forall x, a | x in after.commands && a in after.commands[x].aliases && s.Unowned(a) ensures a in after.commands {
      StaysClosed(s, k, loaded, reg, after, gone, x, a);
    }
  }

  lemma StaysClosed(s: Setup, k: nat, loaded: set<string>, reg: Registry, after: Registry, gone: set<string>,
                    x: string, a: string)
    requires k < |s.order| && TableInv(s, k, loaded, reg)
    requires after == Registry(reg.commands - gone, reg.byPlugin)
    requires forall x :: x in gone ==> s.Owns(s.order[k], x) || x !in reg.commands
    requires x in after.commands && a in after.commands[x].aliases && s.Unowned(a)
    ensures a in after.commands
  {
    assert x in reg.commands && a in reg.commands;
  }

  lemma StaysRight(s: Setup, k: nat, loaded: set<string>, reg: Registry, after: Registry, gone: set<string>, x: string)
    requires k < |s.order| && s.order[k] !in loaded && s.Unowned(x) && AliasRight(s, k, loaded, reg, x)
    requires after == Registry(reg.commands - gone, reg.byPlugin)
    requires forall x :: x in gone ==> s.Owns(s.order[k], x) || x !in reg.commands
    ensures AliasRight(s, k + 1, loaded, after, x)
  {
    assert s.FirstAlias(k + 1, loaded, x) == s.FirstAlias(k, loaded, x);
  }

  lemma StaysPlaced(s: Setup, k: nat, loaded: set<string>, reg: Registry, after: Registry, gone: set<string>, x: string)
    requires s.Valid() && s.NamesSeparate() && k < |s.order| && TableInv(s, k, loaded, reg)
    requires after == Registry(reg.commands - gone, reg.byPlugin)
    requires forall x :: x in gone ==> s.Owns(s.order[k], x) || x !in reg.commands
    requires x in after.commands
    ensures WellPlaced(s, loaded, after, x)
  {
    assert WellPlaced(s, loaded, reg, x);
    var c := reg.commands[x];
    StaysHeld(s, k, loaded, reg, after, gone, c.plugin, c.name);
  }

  lemma RegisteredRoundKeeps(s: Setup, k: nat, loaded: set<string>, before: Registry, after: Registry, ok: bool,
                             winners: map<string, string>, claims: map<string, string>, n: nat)
    requires s.Valid() && s.NamesSeparate() && k < |s.order| && TableInv(s, k, loaded, before)
    requires ClaimsOf(before.commands, winners, claims) && LoadWith(s, s.order[k], claims, before, after, ok)
    requires var q := s.order[k];
      var o := RegisterFeatures(Progress(before, {}), q, s.actions[q], claims, s.Features(q));
      && n <= |s.Commands(q)| && (ok ==> n == |s.Commands(q)|)
      && Registering(before, q, s.actions[q], claims, s.Commands(q)[..n], o.progress)
    ensures TableInv(s, k + 1, if ok then loaded + {s.order[k]} else loaded, after)
  {
    var q := s.order[k];
    NextIsNew(s, k, loaded);
    var done := s.Commands(q)[..n];
    var o := RegisterFeatures(Progress(before, {}), q, s.actions[q], claims, s.Features(q));
    if ok {
      assert done == s.Commands(q);
      LoadSucceeds(s, k, loaded, before, winners, claims, o.progress);
    } else {
      RegisteredNames(s, k, loaded, before, winners, claims, q, done, o.progress);
      UnregisterExactly(before, q, s.actions[q], claims, done, o.progress, after);
      LoadFails(s, k, loaded, before, after, o.progress.registered);
    }
  }

  lemma SkippedRoundKeeps(s: Setup, k: nat, loaded: set<string>, before: Registry, after: Registry)
    requires s.Valid() && s.NamesSeparate() && k < |s.order| && TableInv(s, k, loaded, before)
    requires Unregistered(before, after, s.order[k])
    ensures TableInv(s, k + 1, loaded, after)
  {
    NextIsNew(s, k, loaded);
    UnregisterUnknown(before, after, s.order[k]);
    assert before.commands - {} == before.commands;
    LoadFails(s, k, loaded, before, after, {});
  }

  lemma UnregisterUnknown(before: Registry, after: Registry, q: string)
    requires q !in before.byPlugin && Unregistered(before, after, q)
    ensures after == before
  {
    assert before.byPlugin - {q} == before.byPlugin;
    assert AliasesUnder(before, {}) == {};
    assert after.commands == before.commands;
  }

  lemma EmptyTable(s: Setup, reg: Registry)
    requires reg == Registry(map[], map[])
    ensures TableInv(s, 0, {}, reg)
  {
  }

  /** Every round of the loading loop keeps the table invariant. */
  lemma LoadRoundKeeps(s: Setup, k: nat, loaded: set<string>, before: Registry, after: Registry, imports: bool,
                       ok: bool)
    requires s.Valid() && s.NamesSeparate() && k < |s.order| && TableInv(s, k, loaded, before)
    requires LoadRound(s, k, before, after, imports, ok)
    ensures TableInv(s, k + 1, if ok then loaded + {s.order[k]} else loaded, after)
  {
    var q := s.order[k];
    if !imports {
      SkippedRoundKeeps(s, k, loaded, before, after);
    } else {
      var winners, claims :| ClaimsOf(before.commands, winners, claims) && LoadWith(s, q, claims, before, after, ok);
      var n := RegisterFeaturesKeeps(before, q, s.actions[q], claims, s.Features(q));
      RegisteredRoundKeeps(s, k, loaded, before, after, ok, winners, claims, n);
    }
  }

  /** What the finished table guarantees, in terms of the manifests alone:
      commands told to stay lead to their plugin under their own name, renamed
      ones under the dotted name, whichever plugin was loaded later. */
  ghost predicate KeepersHold(s: Setup, loaded: set<string>, reg: Registry)
    requires s.Valid()
  {
    forall p, c :: p in loaded && p in s.order && c in s.Commands(p) ==> KeeperHolds(s, reg, p, c)
  }

  ghost predicate KeeperHolds(s: Setup, reg: Registry, p: string, c: CommandDecl)
    requires s.Valid() && p in s.order
  {
    match ActionFor(s.order, s.manifests, p, c.name)
    case Skip => true
    case Keep => HeldBy(reg, c.name, p)
    case Rename => HeldBy(reg, p + "." + c.name, p)
  }

  lemma TableHoldsKeepers(s: Setup, loaded: set<string>, reg: Registry)
    requires s.Valid() && TableInv(s, |s.order|, loaded, reg)
    ensures KeepersHold(s, loaded, reg)
  {
    HeldIsKept(s, loaded, reg);
  }

  lemma HeldIsKept(s: Setup, loaded: set<string>, reg: Registry)
    requires s.Valid() && forall p, x {:trigger HeldBy(reg, x, p)} :: p in loaded && s.Owns(p, x) ==> HeldBy(reg, x, p)
    ensures KeepersHold(s, loaded, reg)
  {
    forall p, c | p in loaded && p in s.order && c in s.Commands(p) ensures KeeperHolds(s, reg, p, c) {
      assert IsResolution(s.order, s.manifests, p, s.actions[p]);
      assert c.name in s.actions[p];
      if ActionOf(s.actions[p], c) != Skip {
        assert s.Owns(p, Effective(p, s.actions[p], c));
        assert HeldBy(reg, Effective(p, s.actions[p], c), p);
      }
    }
  }

  lemma KeptUnder(s: Setup, loaded: set<string>, reg: Registry, p: string, x: string)
    requires s.Valid() && KeepersHold(s, loaded, reg) && p in loaded && s.Owns(p, x)
    ensures HeldBy(reg, x, p)
  {
    var c :| c in s.Commands(p) && ActionOf(s.actions[p], c) != Skip && Effective(p, s.actions[p], c) == x;
    assert IsResolution(s.order, s.manifests, p, s.actions[p]);
    assert c.name in s.actions[p] && KeeperHolds(s, reg, p, c);
  }

  /** No table gives two loaded plugins what they were told when they own the same name. */
  lemma ClashLosesOne(s: Setup, loaded: set<string>, reg: Registry, p: string, q: string, x: string)
    requires s.Valid() && p != q && p in loaded && q in loaded && s.Owns(p, x) && s.Owns(q, x)
    ensures !KeepersHold(s, loaded, reg)
  {
    if KeepersHold(s, loaded, reg) {
      KeptUnder(s, loaded, reg, p, x);
      KeptUnder(s, loaded, reg, q, x);
    }
  }

  // ---------------------------------------------------------------- a whole load

  /** The tables `regs` between the rounds of a load from the empty table, in
      which exactly the plugins of `loaded` load. */
  ghost predicate Load(s: Setup, imports: set<string>, loaded: set<string>, regs: seq<Registry>) {
    && s.Valid() && loaded <= Elems(s.order)
    && |regs| == |s.order| + 1 && regs[0] == Registry(map[], map[])
    && Rounds(s, imports, loaded, regs, |s.order|)
  }

  /** The first `n` rounds. */
  ghost predicate Rounds(s: Setup, imports: set<string>, loaded: set<string>, regs: seq<Registry>, n: nat)
    requires s.Valid() && n <= |s.order| && n < |regs|
  {
    forall k {:trigger s.order[k]} :: 0 <= k < n ==>
      LoadRound(s, k, regs[k], regs[k + 1], s.order[k] in imports, s.order[k] in loaded)
  }

  lemma RoundsStep(s: Setup, imports: set<string>, before: set<string>, loaded: set<string>, regs: seq<Registry>,
                   after: Registry, n: nat, ok: bool)
    requires s.Valid() && n < |s.order| && |regs| == n + 1 && before <= Elems(s.order[..n])
    requires Rounds(s, imports, before, regs, n)
    requires LoadRound(s, n, regs[n], after, s.order[n] in imports, ok)
    requires loaded == if ok then before + {s.order[n]} else before
    ensures Rounds(s, imports, loaded, regs + [after], n + 1) && loaded <= Elems(s.order[..n + 1])
  {
    assert s.order[..n + 1] == s.order[..n] + [s.order[n]];
    assert s.order[n] !in before;
    forall k {:trigger s.order[k]} | 0 <= k < n ensures s.order[k] in loaded <==> s.order[k] in before {
      assert s.order[k] != s.order[n];
    }
  }

  lemma {:induction false} LoadKeeps(s: Setup, imports: set<string>, loaded: set<string>, regs: seq<Registry>, k: nat)
    requires Load(s, imports, loaded, regs) && s.NamesSeparate() && k <= |s.order|
    ensures TableInv(s, k, loaded * Elems(s.order[..k]), regs[k])
  {
    if k == 0 {
      EmptyTable(s, regs[0]);
      assert loaded * Elems(s.order[..0]) == {};
    } else {
      LoadKeeps(s, imports, loaded, regs, k - 1);
      RoundAt(s, imports, loaded, regs, k);
      OneMoreLoaded(s.order, loaded, k - 1);
      NextTable(s, k - 1, loaded * Elems(s.order[..k - 1]), loaded * Elems(s.order[..k]),
                regs[k - 1], regs[k], s.order[k - 1] in imports, s.order[k - 1] in loaded);
    }
  }

  lemma RoundAt(s: Setup, imports: set<string>, loaded: set<string>, regs: seq<Registry>, k: nat)
    requires Load(s, imports, loaded, regs) && 0 < k <= |s.order|
    ensures LoadRound(s, k - 1, regs[k - 1], regs[k], s.order[k - 1] in imports, s.order[k - 1] in loaded)
  {
    var j := k - 1;
    assert LoadRound(s, j, regs[j], regs[j + 1], s.order[j] in imports, s.order[j] in loaded);
  }

  lemma NextTable(s: Setup, k: nat, loaded: set<string>, now: set<string>, before: Registry, after: Registry,
                  imports: bool, ok: bool)
    requires s.Valid() && s.NamesSeparate() && k < |s.order| && TableInv(s, k, loaded, before)
    requires LoadRound(s, k, before, after, imports, ok)
    requires now == if ok then loaded + {s.order[k]} else loaded
    ensures TableInv(s, k + 1, now, after)
  {
    LoadRoundKeeps(s, k, loaded, before, after, imports, ok);
  }

  lemma OneMoreLoaded(order: seq<string>, loaded: set<string>, k: nat)
    requires k < |order|
    ensures var before := loaded * Elems(order[..k]);
      loaded * Elems(order[..k + 1]) == if order[k] in loaded then before + {order[k]} else before
  {
    assert order[..k + 1] == order[..k] + [order[k]];
    assert Elems(order[..k + 1]) == Elems(order[..k]) + {order[k]};
  }

  /** With separate names every plugin that loads holds what it was told. */
  lemma LoadHoldsKeepers(s: Setup, imports: set<string>, loaded: set<string>, regs: seq<Registry>)
    requires Load(s, imports, loaded, regs) && s.NamesSeparate()
    ensures TableInv(s, |s.order|, loaded, regs[|s.order|])
    ensures KeepersHold(s, loaded, regs[|s.order|])
  {
    LoadKeeps(s, imports, loaded, regs, |s.order|);
    assert s.order[..|s.order|] == s.order;
    assert loaded * Elems(s.order) == loaded;
    TableHoldsKeepers(s, loaded, regs[|s.order|]);
  }

  /** When all plugins load, all hold what they were told exactly when no
      effective name belongs to two of them. */
  lemma KeepersHoldIff(s: Setup, imports: set<string>, regs: seq<Registry>)
    requires Load(s, imports, Elems(s.order), regs)
    ensures KeepersHold(s, Elems(s.order), regs[|s.order|]) <==> s.NamesSeparate()
  {
    if s.NamesSeparate() {
      LoadHoldsKeepers(s, imports, Elems(s.order), regs);
    } else {
      var p, q, x :| s.Owns(p, x) && s.Owns(q, x) && p != q;
      ClashLosesOne(s, Elems(s.order), regs[|s.order|], p, q, x);
    }
  }

  // ---------------------------------------------------------------- loads in which plugins fail

  /** The names that round `k` registered, before it failed if it did. */
  ghost predicate Enters(s: Setup, k: nat, before: Registry, after: Registry, imports: bool, ok: bool,
                         names: set<string>)
    requires k < |s.order| && s.order[k] in s.manifests && s.order[k] in s.actions
  {
    var q := s.order[k];
    if !imports then names == {}
    else exists winners, claims ::
      && ClaimsOf(before.commands, winners, claims) && LoadWith(s, q, claims, before, after, ok)
      && names == RegisterFeatures(Progress(before, {}), q, s.actions[q], claims, s.Features(q)).progress.registered
  }

  ghost predicate AllEnter(s: Setup, imports: set<string>, loaded: set<string>, regs: seq<Registry>,
                           entered: seq<set<string>>, n: nat)
    requires s.Valid() && n <= |s.order| && n < |regs|
  {
    && |entered| == n
    && forall k {:trigger entered[k]} :: 0 <= k < n ==>
      Enters(s, k, regs[k], regs[k + 1], s.order[k] in imports, s.order[k] in loaded, entered[k])
  }

  /** No round enters an effective name of a plugin that was loaded before it. */
  ghost predicate Undisturbed(s: Setup, loaded: set<string>, entered: seq<set<string>>)
    requires |entered| == |s.order|
  {
    forall k, j, x {:trigger s.Owns(s.order[k], x), x in entered[j]} ::
      0 <= k < j < |s.order| && s.order[k] in loaded && x in entered[j] ==> !s.Owns(s.order[k], x)
  }

  lemma {:induction false} EnteredSets(s: Setup, imports: set<string>, loaded: set<string>, regs: seq<Registry>, n: nat)
      returns (entered: seq<set<string>>)
    requires Load(s, imports, loaded, regs) && n <= |s.order|
    ensures AllEnter(s, imports, loaded, regs, entered, n)
  {
    if n == 0 {
      entered := [];
    } else {
      var init := EnteredSets(s, imports, loaded, regs, n - 1);
      var names := EnteredIn(s, imports, loaded, regs, n - 1);
      entered := init + [names];
      forall k {:trigger entered[k]} | 0 <= k < n
        ensures Enters(s, k, regs[k], regs[k + 1], s.order[k] in imports, s.order[k] in loaded, entered[k])
      {
        assert k < n - 1 ==> entered[k] == init[k];
      }
    }
  }

  lemma EnteredIn(s: Setup, imports: set<string>, loaded: set<string>, regs: seq<Registry>, k: nat)
      returns (names: set<string>)
    requires Load(s, imports, loaded, regs) && k < |s.order|
    ensures Enters(s, k, regs[k], regs[k + 1], s.order[k] in imports, s.order[k] in loaded, names)
  {
    var q := s.order[k];
    assert LoadRound(s, k, regs[k], regs[k + 1], q in imports, q in loaded);
    if q !in imports {
      names := {};
    } else {
      var winners, claims :| ClaimsOf(regs[k].commands, winners, claims)
        && LoadWith(s, q, claims, regs[k], regs[k + 1], q in loaded);
      names := RegisterFeatures(Progress(regs[k], {}), q, s.actions[q], claims, s.Features(q)).progress.registered;
    }
  }

  ghost predicate SameAt(before: Registry, after: Registry, x: string) {
    && (x in before.commands <==> x in after.commands)
    && (x in before.commands ==> after.commands[x] == before.commands[x])
  }

  /** What one round does to the table, in terms of the names it entered. */
  ghost predicate Changed(s: Setup, k: nat, before: Registry, after: Registry, ok: bool, names: set<string>)
    requires k < |s.order|
  {
    var q := s.order[k];
    && after.byPlugin.Keys <= before.byPlugin.Keys + {q}
    && (forall x {:trigger SameAt(before, after, x)} :: x !in names ==> SameAt(before, after, x))
    && (forall x {:trigger after.commands[x]} :: x in names && x in after.commands ==> after.commands[x].plugin == q)
    && (forall x {:trigger HeldBy(after, x, q)} :: ok && s.Owns(q, x) ==> HeldBy(after, x, q))
  }

  lemma RoundChanges(s: Setup, k: nat, before: Registry, after: Registry, imports: bool, ok: bool, names: set<string>)
    requires s.Valid() && k < |s.order| && s.order[k] !in before.byPlugin
    requires LoadRound(s, k, before, after, imports, ok) && Enters(s, k, before, after, imports, ok, names)
    ensures Changed(s, k, before, after, ok, names)
  {
    var q := s.order[k];
    if !imports {
      UnregisterUnknown(before, after, q);
    } else {
      var winners, claims :| ClaimsOf(before.commands, winners, claims) && LoadWith(s, q, claims, before, after, ok)
        && names == RegisterFeatures(Progress(before, {}), q, s.actions[q], claims, s.Features(q)).progress.registered;
      LoadWithChanges(s, k, claims, before, after, ok);
    }
  }

  lemma LoadWithChanges(s: Setup, k: nat, claims: map<string, string>, before: Registry, after: Registry, ok: bool)
    requires s.Valid() && k < |s.order| && s.order[k] !in before.byPlugin
    requires LoadWith(s, s.order[k], claims, before, after, ok)
    ensures var q := s.order[k];
      var pr := RegisterFeatures(Progress(before, {}), q, s.actions[q], claims, s.Features(q)).progress;
      Changed(s, k, before, after, ok, pr.registered)
  {
    var q := s.order[k];
    var pr := RegisterFeatures(Progress(before, {}), q, s.actions[q], claims, s.Features(q)).progress;
    var n := RegisterFeaturesKeeps(before, q, s.actions[q], claims, s.Features(q));
    if ok {
      assert s.Commands(q)[..n] == s.Commands(q);
      SuccessChanges(s, k, claims, before, pr);
    } else {
      FailureChanges(s, k, claims, before, after, s.Commands(q)[..n], pr);
    }
  }

  lemma FailureChanges(s: Setup, k: nat, claims: map<string, string>, before: Registry, after: Registry,
                       done: seq<CommandDecl>, pr: Progress)
    requires s.Valid() && k < |s.order| && s.order[k] !in before.byPlugin && Unregistered(pr.reg, after, s.order[k])
    requires var q := s.order[k]; Registering(before, q, s.actions[q], claims, done, pr)
    ensures Changed(s, k, before, after, false, pr.registered)
  {
    UnregisterExactly(before, s.order[k], s.actions[s.order[k]], claims, done, pr, after);
  }

  lemma SuccessChanges(s: Setup, k: nat, claims: map<string, string>, before: Registry, pr: Progress)
    requires s.Valid() && k < |s.order| && s.order[k] !in before.byPlugin
    requires var q := s.order[k]; Registering(before, q, s.actions[q], claims, s.Commands(q), pr)
    ensures Changed(s, k, before, pr.reg, true, pr.registered)
  {
    RegisteredChanges(s, s.order[k], claims, before, pr);
  }

  lemma RegisteredChanges(s: Setup, q: string, claims: map<string, string>, before: Registry, pr: Progress)
    requires s.Valid() && q in s.order && q !in before.byPlugin
    requires Registering(before, q, s.actions[q], claims, s.Commands(q), pr)
    ensures pr.reg.byPlugin.Keys <= before.byPlugin.Keys + {q}
    ensures forall x :: x in pr.registered ==> x in pr.reg.commands && pr.reg.commands[x].plugin == q
    ensures forall x :: s.Owns(q, x) ==> HeldBy(pr.reg, x, q)
  {
    OneRecordMore(before, pr.reg, q);
    forall x | x in pr.registered ensures x in pr.reg.commands && pr.reg.commands[x].plugin == q {
      assert Placed(q, s.actions[q], claims, s.Commands(q), pr, x);
    }
    forall x | s.Owns(q, x) ensures HeldBy(pr.reg, x, q) {
      var c :| c in s.Commands(q) && ActionOf(s.actions[q], c) != Skip && Effective(q, s.actions[q], c) == x;
      assert Covered(q, s.actions[q], claims, pr, c);
    }
  }

  /** Round `k` of a load changes the table so; its plugin was not in it yet. */
  lemma {:induction false} RoundOf(s: Setup, imports: set<string>, loaded: set<string>, regs: seq<Registry>,
                                   entered: seq<set<string>>, k: nat)
    requires Load(s, imports, loaded, regs) && AllEnter(s, imports, loaded, regs, entered, |s.order|) && k < |s.order|
    ensures Changed(s, k, regs[k], regs[k + 1], s.order[k] in loaded, entered[k])
    ensures regs[k + 1].byPlugin.Keys <= Elems(s.order[..k + 1])
  {
    if k > 0 {
      RoundOf(s, imports, loaded, regs, entered, k - 1);
    }
    EntersAt(s, imports, loaded, regs, entered, k);
    NewRoundChanges(s, k, regs[k], regs[k + 1], s.order[k] in imports, s.order[k] in loaded, entered[k]);
  }

  lemma EntersAt(s: Setup, imports: set<string>, loaded: set<string>, regs: seq<Registry>, entered: seq<set<string>>,
                 k: nat)
    requires Load(s, imports, loaded, regs) && AllEnter(s, imports, loaded, regs, entered, |s.order|) && k < |s.order|
    ensures LoadRound(s, k, regs[k], regs[k + 1], s.order[k] in imports, s.order[k] in loaded)
    ensures Enters(s, k, regs[k], regs[k + 1], s.order[k] in imports, s.order[k] in loaded, entered[k])
  {
  }

  lemma NewRoundChanges(s: Setup, k: nat, before: Registry, after: Registry, imports: bool, ok: bool,
                        names: set<string>)
    requires s.Valid() && k < |s.order| && before.byPlugin.Keys <= Elems(s.order[..k])
    requires LoadRound(s, k, before, after, imports, ok) && Enters(s, k, before, after, imports, ok, names)
    ensures Changed(s, k, before, after, ok, names) && after.byPlugin.Keys <= Elems(s.order[..k + 1])
  {
    assert s.order[..k + 1] == s.order[..k] + [s.order[k]];
    assert s.order[k] !in s.order[..k];
    RoundChanges(s, k, before, after, imports, ok, names);
  }

  /** What round `n` does to a name of another plugin: it stays where it was, unless entered. */
  lemma RoundAndName(s: Setup, imports: set<string>, loaded: set<string>, regs: seq<Registry>,
                     entered: seq<set<string>>,
                     n: nat, p: string, x: string)
    requires Load(s, imports, loaded, regs) && AllEnter(s, imports, loaded, regs, entered, |s.order|)
    requires 0 < n <= |s.order| && p != s.order[n - 1]
    ensures HeldBy(regs[n], x, p) <==> HeldBy(regs[n - 1], x, p) && x !in entered[n - 1]
  {
    var k := n - 1;
    RoundOf(s, imports, loaded, regs, entered, k);
    assert Changed(s, k, regs[k], regs[k + 1], s.order[k] in loaded, entered[k]);
    assert x !in entered[k] ==> SameAt(regs[k], regs[k + 1], x);
  }

  lemma OwnRound(s: Setup, imports: set<string>, loaded: set<string>, regs: seq<Registry>, entered: seq<set<string>>,
                 k: nat, x: string)
    requires Load(s, imports, loaded, regs) && AllEnter(s, imports, loaded, regs, entered, |s.order|)
    requires k < |s.order| && s.order[k] in loaded && s.Owns(s.order[k], x)
    ensures HeldBy(regs[k + 1], x, s.order[k])
  {
    RoundOf(s, imports, loaded, regs, entered, k);
    Holds(s, k, regs[k], regs[k + 1], entered[k], x);
  }

  lemma Holds(s: Setup, k: nat, before: Registry, after: Registry, names: set<string>, x: string)
    requires k < |s.order| && Changed(s, k, before, after, true, names) && s.Owns(s.order[k], x)
    ensures HeldBy(after, x, s.order[k])
  {
  }

  /** A name that a plugin holds after its own round stays with it as long as no
      later round enters it. */
  lemma {:induction false} StaysWithOwner(s: Setup, imports: set<string>, loaded: set<string>, regs: seq<Registry>,
                                          entered: seq<set<string>>, k: nat, n: nat, x: string)
    requires Load(s, imports, loaded, regs) && AllEnter(s, imports, loaded, regs, entered, |s.order|)
    requires k < n <= |s.order| && s.order[k] in loaded && s.Owns(s.order[k], x)
    requires forall j :: k < j < n ==> x !in entered[j]
    ensures HeldBy(regs[n], x, s.order[k])
  {
    if k < n - 1 {
      StaysWithOwner(s, imports, loaded, regs, entered, k, n - 1, x);
      RoundAndName(s, imports, loaded, regs, entered, n, s.order[k], x);
    } else {
      OwnRound(s, imports, loaded, regs, entered, k, x);
    }
  }

  /** Once a later round enters it, the name is never with the plugin again. */
  lemma {:induction false} NeverComesBack(s: Setup, imports: set<string>, loaded: set<string>, regs: seq<Registry>,
                                          entered: seq<set<string>>, k: nat, j: nat, n: nat, x: string)
    requires Load(s, imports, loaded, regs) && AllEnter(s, imports, loaded, regs, entered, |s.order|)
    requires k < j < n <= |s.order| && x in entered[j]
    ensures !HeldBy(regs[n], x, s.order[k])
  {
    if j < n - 1 {
      NeverComesBack(s, imports, loaded, regs, entered, k, j, n - 1, x);
    }
    RoundAndName(s, imports, loaded, regs, entered, n, s.order[k], x);
  }

  /** Whichever plugins fail, those that loaded all hold what they were told exactly
      when no later round, failed or not, registered a name that is theirs. */
  lemma LoadHoldsIff(s: Setup, imports: set<string>, loaded: set<string>, regs: seq<Registry>,
                     entered: seq<set<string>>)
    requires Load(s, imports, loaded, regs) && AllEnter(s, imports, loaded, regs, entered, |s.order|)
    ensures KeepersHold(s, loaded, regs[|s.order|]) <==> Undisturbed(s, loaded, entered)
  {
    var n := |s.order|;
    if Undisturbed(s, loaded, entered) {
      forall p, x | p in loaded && s.Owns(p, x) ensures HeldBy(regs[n], x, p) {
        var k :| 0 <= k < n && s.order[k] == p;
        StaysWithOwner(s, imports, loaded, regs, entered, k, n, x);
      }
      HeldIsKept(s, loaded, regs[n]);
    } else {
      var k, j, x :| 0 <= k < j < n && s.order[k] in loaded && x in entered[j] && s.Owns(s.order[k], x);
      NeverComesBack(s, imports, loaded, regs, entered, k, j, n, x);
      if KeepersHold(s, loaded, regs[n]) {
        KeptUnder(s, loaded, regs[n], s.order[k], x);
      }
    }
  }

  // ---------------------------------------------------------------- where the table's entries come from

  /** The entry `x` leads to a command that a plugin of `loaded` declares and does not
      ask to skip, under its own or its dotted name, or under one of its aliases. */
  ghost predicate Listed(s: Setup, loaded: set<string>, reg: Registry, x: string) {
    && x in reg.commands
    && var cmd := reg.commands[x];
    && cmd.plugin in loaded && cmd.plugin in s.manifests
    && exists c :: c in s.Commands(cmd.plugin) && SpelledAs(s.manifests[cmd.plugin], cmd, c, x)
  }

  predicate SpelledAs(m: Manifest, cmd: Command, c: CommandDecl, x: string) {
    && !AsksToSkip(m, c.name)
    && (cmd.name == c.name || cmd.name == cmd.plugin + "." + c.name)
    && (x == cmd.name || x in c.aliases)
  }

  ghost predicate AllListed(s: Setup, loaded: set<string>, reg: Registry) {
    forall x {:trigger Listed(s, loaded, reg, x)} :: x in reg.commands ==> Listed(s, loaded, reg, x)
  }

  lemma RegisteredDeclared(s: Setup, q: string, claims: map<string, string>, before: Registry, pr: Progress,
                           loaded: set<string>, x: string)
    requires s.Valid() && q in s.order && q in loaded && x in pr.registered
    requires Registering(before, q, s.actions[q], claims, s.Commands(q), pr)
    ensures Listed(s, loaded, pr.reg, x)
  {
    assert Placed(q, s.actions[q], claims, s.Commands(q), pr, x);
    var cmd := pr.reg.commands[x];
    var c :| c in s.Commands(q) && ActionOf(s.actions[q], c) != Skip && Effective(q, s.actions[q], c) == cmd.name
          && cmd.aliases <= KeptAliases(q, claims, c);
    SkipIsAsked(s, q, c);
    assert SpelledAs(s.manifests[q], cmd, c, x);
  }

  lemma SkipIsAsked(s: Setup, q: string, c: CommandDecl)
    requires s.Valid() && q in s.order && c in s.Commands(q)
    ensures ActionOf(s.actions[q], c) == Skip <==> AsksToSkip(s.manifests[q], c.name)
  {
    var k :| 0 <= k < |s.order| && s.order[k] == q;
    assert forall i :: 0 <= i < k ==> s.order[i] != s.order[k];
    assert IsResolution(s.order, s.manifests, q, s.actions[q]);
    ResolutionIsRight(s.order, s.manifests, k, c, s.actions[q]);
  }

  lemma RoundDeclared(s: Setup, k: nat, before: Registry, after: Registry, imports: bool, ok: bool,
                      loaded: set<string>, now: set<string>)
    requires s.Valid() && k < |s.order| && s.order[k] !in before.byPlugin && AllListed(s, loaded, before)
    requires LoadRound(s, k, before, after, imports, ok)
    requires now == if ok then loaded + {s.order[k]} else loaded
    ensures AllListed(s, now, after)
  {
    var q := s.order[k];
    if !imports {
      UnregisterUnknown(before, after, q);
    } else {
      var winners, claims :| ClaimsOf(before.commands, winners, claims) && LoadWith(s, q, claims, before, after, ok);
      var pr := RegisterFeatures(Progress(before, {}), q, s.actions[q], claims, s.Features(q)).progress;
      var n := RegisterFeaturesKeeps(before, q, s.actions[q], claims, s.Features(q));
      if ok {
        assert s.Commands(q)[..n] == s.Commands(q);
        SuccessDeclared(s, q, claims, before, pr, loaded, now);
      } else {
        UnregisterExactly(before, q, s.actions[q], claims, s.Commands(q)[..n], pr, after);
        StillDeclared(s, loaded, before, after);
      }
    }
  }

  lemma SuccessDeclared(s: Setup, q: string, claims: map<string, string>, before: Registry, pr: Progress,
                        loaded: set<string>, now: set<string>)
    requires s.Valid() && q in s.order && now == loaded + {q} && AllListed(s, loaded, before)
    requires Registering(before, q, s.actions[q], claims, s.Commands(q), pr)
    ensures AllListed(s, now, pr.reg)
  {
    forall x | x in pr.reg.commands ensures Listed(s, now, pr.reg, x) {
      if x in pr.registered {
        RegisteredDeclared(s, q, claims, before, pr, now, x);
      } else {
        assert Listed(s, loaded, before, x);
      }
    }
  }

  lemma StillDeclared(s: Setup, loaded: set<string>, before: Registry, after: Registry)
    requires AllListed(s, loaded, before)
    requires forall x :: x in after.commands ==> x in before.commands && after.commands[x] == before.commands[x]
    ensures AllListed(s, loaded, after)
  {
    forall x | x in after.commands ensures Listed(s, loaded, after, x) {
      assert Listed(s, loaded, before, x);
    }
  }

  lemma {:induction false} LoadDeclared(s: Setup, imports: set<string>, loaded: set<string>, regs: seq<Registry>,
                                        entered: seq<set<string>>, k: nat)
    requires Load(s, imports, loaded, regs) && AllEnter(s, imports, loaded, regs, entered, |s.order|) && k <= |s.order|
    ensures AllListed(s, loaded * Elems(s.order[..k]), regs[k])
    ensures regs[k].byPlugin.Keys <= Elems(s.order[..k])
  {
    if k > 0 {
      LoadDeclared(s, imports, loaded, regs, entered, k - 1);
      RoundOf(s, imports, loaded, regs, entered, k - 1);
      RoundAt(s, imports, loaded, regs, k);
      OneMoreLoaded(s.order, loaded, k - 1);
      NotInYet(s, k - 1, regs[k - 1]);
      RoundDeclared(s, k - 1, regs[k - 1], regs[k], s.order[k - 1] in imports, s.order[k - 1] in loaded,
                    loaded * Elems(s.order[..k - 1]), loaded * Elems(s.order[..k]));
    }
  }

  lemma NotInYet(s: Setup, k: nat, reg: Registry)
    requires s.Valid() && k < |s.order| && reg.byPlugin.Keys <= Elems(s.order[..k])
    ensures s.order[k] !in reg.byPlugin
  {
    assert s.order[k] !in s.order[..k];
  }

  /** After a whole load every entry of the table comes from a command that a loaded
      plugin declares and does not ask to skip. */
  lemma EntriesAreDeclared(s: Setup, imports: set<string>, loaded: set<string>, regs: seq<Registry>)
    requires Load(s, imports, loaded, regs)
    ensures AllListed(s, loaded, regs[|s.order|])
  {
    var entered := EnteredSets(s, imports, loaded, regs, |s.order|);
    LoadDeclared(s, imports, loaded, regs, entered, |s.order|);
    assert s.order[..|s.order|] == s.order && loaded * Elems(s.order) == loaded;
  }

  /** A command that its manifest asks to skip has put neither its name nor its dotted
      name into the table, unless another command of the plugin is spelled so. */
  lemma SkippedStaysOut(s: Setup, imports: set<string>, loaded: set<string>, regs: seq<Registry>,
                        p: string, c: CommandDecl, x: string)
    requires Load(s, imports, loaded, regs) && p in s.order
    requires c in s.Commands(p) && AsksToSkip(s.manifests[p], c.name) && (x == c.name || x == p + "." + c.name)
    requires forall d :: d in s.Commands(p) && !AsksToSkip(s.manifests[p], d.name) ==>
      x != d.name && x != p + "." + d.name && x !in d.aliases
    ensures x in regs[|s.order|].commands ==> regs[|s.order|].commands[x].plugin != p
  {
    EntriesAreDeclared(s, imports, loaded, regs);
    assert x in regs[|s.order|].commands ==> Listed(s, loaded, regs[|s.order|], x);
  }

  /** Who is loaded: a plugin that can be imported loads exactly when the handlers of
      the commands it does not skip are found, no two of these clash under the
      claims of the table, and no task or listener raises. */
  lemma RoundLoadsIff(s: Setup, k: nat, before: Registry, after: Registry, imports: bool, ok: bool)
      returns (winners: map<string, string>, claims: map<string, string>)
    requires s.Valid() && k < |s.order| && LoadRound(s, k, before, after, imports, ok)
    ensures imports ==> ClaimsOf(before.commands, winners, claims)
    ensures var q := s.order[k];
      ok <==>
        && imports && HandlersFound(s.actions[q], s.Commands(q)) && NoClash(q, s.actions[q], claims, s.Commands(q))
        && forall f :: f in s.Features(q) ==> f.extras != ExtrasRaise
  {
    var q := s.order[k];
    winners, claims := map[], map[];
    if imports {
      winners, claims :| ClaimsOf(before.commands, winners, claims) && LoadWith(s, q, claims, before, after, ok);
      FeaturesRegisterIff(before, q, s.actions[q], claims, s.Features(q));
    }
  }

  // ---------------------------------------------------------------- plugins without a fault

  /** All spellings under which a command may be registered. */
  function Spellings(p: string, c: CommandDecl): set<string> {
    {c.name, p + "." + c.name} + c.aliases
  }

  /** Nothing in the manifest makes the load raise: handlers are found, tasks and
      listeners register, and no two commands share a spelling. */
  ghost predicate Healthy(p: string, m: Manifest) {
    && ExtrasHold(m.EffectiveFeatures())
    && HealthyList(p, m.AllCommands())
  }

  ghost predicate HealthyList(p: string, cs: seq<CommandDecl>) {
    && (forall i :: 0 <= i < |cs| ==> cs[i].handlerFound)
    && (forall i, j :: 0 <= i < j < |cs| ==> Spellings(p, cs[i]) !! Spellings(p, cs[j]))
  }

  /** What is registered is spelled as in some command that was handled. */
  ghost predicate Spelled(p: string, cs: seq<CommandDecl>, registered: set<string>) {
    forall x :: x in registered ==> SpelledIn(p, cs, x)
  }

  ghost predicate SpelledIn(p: string, cs: seq<CommandDecl>, x: string) {
    exists i {:trigger cs[i]} :: 0 <= i < |cs| && x in Spellings(p, cs[i])
  }

  lemma HealthyStep(pr: Progress, p: string, actions: map<string, Action>, claims: map<string, string>,
                    cs: seq<CommandDecl>, k: nat)
    requires HealthyList(p, cs) && k < |cs| && Spelled(p, cs[..k], pr.registered)
    ensures var o := RegisterNext(pr, p, actions, claims, cs[k]);
      o.Done? && Spelled(p, cs[..k + 1], o.progress.registered)
  {
    var c := cs[k];
    forall x | x in pr.registered ensures x !in Spellings(p, c) {
      var i :| 0 <= i < |cs[..k]| && x in Spellings(p, cs[..k][i]);
      assert Spellings(p, cs[i]) !! Spellings(p, cs[k]);
    }
    var o := RegisterNext(pr, p, actions, claims, c);
    forall x | x in o.progress.registered ensures SpelledIn(p, cs[..k + 1], x) {
      if x in pr.registered {
        var i :| 0 <= i < |cs[..k]| && x in Spellings(p, cs[..k][i]);
        assert cs[..k + 1][i] == cs[..k][i];
      } else {
        assert cs[..k + 1][k] == c;
      }
    }
  }

  lemma {:induction false} HealthyRegisters(pr: Progress, p: string, actions: map<string, Action>,
                                            claims: map<string, string>, cs: seq<CommandDecl>, k: nat)
    requires HealthyList(p, cs) && k <= |cs| && Spelled(p, cs[..k], pr.registered)
    ensures RegisterAll(pr, p, actions, claims, cs[k..]).Done?
    decreases |cs| - k
  {
    if k < |cs| {
      HealthyStep(pr, p, actions, claims, cs, k);
      HealthyRegisters(RegisterNext(pr, p, actions, claims, cs[k]).progress, p, actions, claims, cs, k + 1);
    }
  }

  /** A healthy plugin that can be imported loads, whatever was loaded before. */
  lemma HealthyLoads(s: Setup, k: nat, before: Registry, after: Registry, ok: bool)
    requires s.Valid() && k < |s.order| && Healthy(s.order[k], s.manifests[s.order[k]])
    requires LoadRound(s, k, before, after, true, ok)
    ensures ok
  {
    var q := s.order[k];
    var winners, claims :| ClaimsOf(before.commands, winners, claims) && LoadWith(s, q, claims, before, after, ok);
    var cs := s.Commands(q);
    ReachedPrefix(s.Features(q));
    FeaturesAreList(Progress(before, {}), q, s.actions[q], claims, s.Features(q));
    assert cs[0..] == cs;
    HealthyRegisters(Progress(before, {}), q, s.actions[q], claims, cs, 0);
  }

  /** If every plugin can be imported and is healthy, all load. */
  lemma AllLoad(s: Setup, imports: set<string>, loaded: set<string>, regs: seq<Registry>)
    requires Load(s, imports, loaded, regs)
    requires forall p :: p in s.order ==> p in imports && Healthy(p, s.manifests[p])
    ensures loaded == Elems(s.order)
  {
    forall p | p in s.order ensures p in loaded {
      var k :| 0 <= k < |s.order| && s.order[k] == p;
      HealthyLoads(s, k, regs[k], regs[k + 1], p in loaded);
    }
  }

  /** Loads the enabled plugins that have a manifest into an empty registry, in
      dependency order. `imports` says which plugin modules can be imported at all. */
  method LoadEnabled(manifests: ManifestMap, enabled: set<string>, imports: set<string>, registry: CommandRegistry)
      returns (r: Result<set<string>, OrderError>,
               ghost s: Setup, ghost regs: seq<Registry>, ghost entered: seq<set<string>>)
    requires "" !in manifests
    requires registry.State() == Registry(map[], map[])
    modifies registry
    ensures r.Failure? <==> HasCycle(manifests, enabled * manifests.Keys)
    ensures r.Failure? ==> registry.State() == Registry(map[], map[])
    ensures r.Success? ==> s.manifests == manifests && Elems(s.order) == enabled * manifests.Keys
    ensures r.Success? ==> Ordered(manifests, enabled * manifests.Keys, s.order)
    ensures r.Success? ==> Load(s, imports, r.value, regs) && registry.State() == regs[|s.order|]
    ensures r.Success? && (forall p :: p in s.order ==> p in imports && Healthy(p, manifests[p])) ==>
      r.value == Elems(s.order)
    ensures r.Success? ==> AllListed(s, r.value, registry.State())
    ensures r.Success? ==> AllEnter(s, imports, r.value, regs, entered, |s.order|)
    ensures r.Success? ==> (KeepersHold(s, r.value, registry.State()) <==> Undisturbed(s, r.value, entered))
    ensures r.Success? && s.NamesSeparate() ==> KeepersHold(s, r.value, registry.State())
    ensures r.Success? && r.value == Elems(s.order) ==>
      (KeepersHold(s, r.value, registry.State()) <==> s.NamesSeparate())
  {
    s, regs, entered := Setup([], map[], map[]), [], [];
    var order := ComputeOrder(manifests, enabled * manifests.Keys);
    if order.Failure? {
      r := Failure(order.error);
      return;
    }
    var loaded;
    loaded, s, regs := LoadInOrder(order.value, manifests, imports, registry);
    r := Success(loaded);
    WhatLoadGives(s, imports, loaded, regs);
    EntriesAreDeclared(s, imports, loaded, regs);
    entered := EnteredSets(s, imports, loaded, regs, |s.order|);
    LoadHoldsIff(s, imports, loaded, regs, entered);
  }

  lemma WhatLoadGives(s: Setup, imports: set<string>, loaded: set<string>, regs: seq<Registry>)
    requires Load(s, imports, loaded, regs)
    ensures (forall p :: p in s.order ==> p in imports && Healthy(p, s.manifests[p])) ==> loaded == Elems(s.order)
    ensures s.NamesSeparate() ==> KeepersHold(s, loaded, regs[|s.order|])
    ensures loaded == Elems(s.order) ==> (KeepersHold(s, loaded, regs[|s.order|]) <==> s.NamesSeparate())
  {
    if forall p :: p in s.order ==> p in imports && Healthy(p, s.manifests[p]) { AllLoad(s, imports, loaded, regs); }
    if s.NamesSeparate() { LoadHoldsKeepers(s, imports, loaded, regs); }
    if loaded == Elems(s.order) { KeepersHoldIff(s, imports, regs); }
  }

  method LoadInOrder(order: seq<string>, manifests: ManifestMap, imports: set<string>, registry: CommandRegistry)
      returns (loaded: set<string>, ghost s: Setup, ghost regs: seq<Registry>)
    requires forall p :: p in order ==> p in manifests && p != ""
    requires forall i, j :: 0 <= i < j < |order| ==> order[i] != order[j]
    requires registry.State() == Registry(map[], map[])
    modifies registry
    ensures s.order == order && s.manifests == manifests
    ensures Load(s, imports, loaded, regs) && registry.State() == regs[|order|]
  {
    var actions := ComputeResolution(order, manifests);
    s := Setup(order, manifests, actions);
    loaded, regs := {}, [registry.State()];
    for k := 0 to |order|
      invariant loaded <= Elems(order[..k])
      invariant |regs| == k + 1 && regs[0] == Registry(map[], map[]) && regs[k] == registry.State()
      invariant Rounds(s, imports, loaded, regs, k)
    {
      var q := order[k];
      ghost var before := loaded;
      var ok := LoadPlugin(q, manifests[q].EffectiveFeatures(), actions[q], q in imports, registry, s, k);
      if ok {
        loaded := loaded + {q};
      }
      RoundsStep(s, imports, before, loaded, regs, registry.State(), k, ok);
      regs := regs + [registry.State()];
    }
    assert order[..|order|] == order;
  }

  method LoadPlugin(q: string, features: seq<Feature>, actions: map<string, Action>, importable: bool,
                    registry: CommandRegistry, ghost s: Setup, ghost k: nat) returns (ok: bool)
    requires s.Valid() && k < |s.order| && q == s.order[k]
    requires features == s.Features(q) && actions == s.actions[q]
    modifies registry
    ensures LoadRound(s, k, old(registry.State()), registry.State(), importable, ok)
  {
    if !importable {
      var _ := registry.UnregisterPlugin(q);
      return false;
    }
    var o, claims, winners := registry.RegisterDeclarative(q, features, actions);
    ok := o.Done?;
    if !ok {
      var _ := registry.UnregisterPlugin(q);
    }
    assert LoadWith(s, q, claims, old(registry.State()), registry.State(), ok);
  }

  // ---------------------------------------------------------------- where names clash

  function OneCommand(name: string, alias: set<string>): Manifest {
    Manifest({}, map[], [], [CommandDecl(name, alias, true)], NoExtras)
  }

  lemma OneCommandDeclares(name: string, alias: set<string>)
    ensures OneCommand(name, alias).AllCommands() == [CommandDecl(name, alias, true)]
    ensures Declared(OneCommand(name, alias)) == {name} + alias
  {
    var m, c := OneCommand(name, alias), CommandDecl(name, alias, true);
    var f := Feature([c], NoExtras);
    assert m.EffectiveFeatures() == [f] && [f][1..] == [] && [c] + Flatten([]) == [c];
    assert forall d :: d in [c] <==> d == c;
    assert DeclaredIn([c]) == DeclNames(c);
  }

  /** Plugins `a` and `b` declare `x`, and `c` declares `b.x`. */
  function ClashSetup(): Setup {
    Setup(["a", "b", "c"],
          map["a" := OneCommand("x", {}), "b" := OneCommand("x", {}), "c" := OneCommand("b.x", {})],
          map["a" := map["x" := Keep], "b" := map["x" := Rename], "c" := map["b.x" := Keep]])
  }

  /** The name under which `b` is told to register is declared by `c`: generated
      names can clash. */
  lemma GeneratedNameClashes()
    ensures var s := ClashSetup(); s.Valid() && s.Owns("b", "b.x") && s.Owns("c", "b.x") && !s.NamesSeparate()
  {
    var s := ClashSetup();
    ClashIsValid();
    OneCommandDeclares("x", {});
    OneCommandDeclares("b.x", {});
    assert s.Commands("b")[0] == CommandDecl("x", {}, true) && s.Commands("c")[0] == CommandDecl("b.x", {}, true);
    assert Effective("b", s.actions["b"], CommandDecl("x", {}, true)) == "b.x";
    assert s.Owns("b", "b.x") && s.Owns("c", "b.x");
  }

  lemma ClashIsValid()
    ensures ClashSetup().Valid()
  {
    ClashKeepers(ClashSetup());
    ThreeResolved(ClashSetup(), "a", "b", "c", "x", "b.x");
  }

  /** Two plugins with the same single command, and a third with another. */
  lemma ThreeResolved(s: Setup, a: string, b: string, c: string, x: string, y: string)
    requires s.order == [a, b, c] && a != b && b != c && a != c && a != "" && b != "" && c != ""
    requires s.manifests == map[a := OneCommand(x, {}), b := OneCommand(x, {}), c := OneCommand(y, {})]
    requires s.actions == map[a := map[x := Keep], b := map[x := Rename], c := map[y := Keep]]
    requires Keeper(s.order, s.manifests, x) == Some(a) && Keeper(s.order, s.manifests, y) == Some(c)
    ensures s.Valid()
  {
    ResolvedOne(s, a, x);
    ResolvedOne(s, b, x);
    ResolvedOne(s, c, y);
  }

  lemma ResolvedOne(s: Setup, p: string, x: string)
    requires p in s.manifests && p in s.actions && s.manifests[p] == OneCommand(x, {})
    requires forall q :: q in s.order ==> q in s.manifests
    requires s.actions[p] == map[x := if Keeper(s.order, s.manifests, x) == Some(p) then Keep else Rename]
    ensures IsResolution(s.order, s.manifests, p, s.actions[p])
  {
    OneCommandDeclares(x, {});
    var cs := s.manifests[p].AllCommands();
    assert cs[0].name == x;
  }

  lemma ClashKeepers(s: Setup)
    requires s == ClashSetup()
    ensures Keeper(s.order, s.manifests, "x") == Some("a") && Keeper(s.order, s.manifests, "b.x") == Some("c")
  {
    OneCommandDeclares("x", {});
    OneCommandDeclares("b.x", {});
    assert |"x"| != |"b.x"|;
    assert ["a", "b", "c"][..2] == ["a", "b"] && ["a", "b"][..1] == ["a"] && ["a"][..0] == [];
    assert FirstDeclarer(["a"], s.manifests, "x") == Some("a");
    assert FirstDeclarer(["a", "b"], s.manifests, "x") == Some("a");
    assert FirstDeclarer(["a"], s.manifests, "b.x") == None;
    assert FirstDeclarer(["a", "b"], s.manifests, "b.x") == None;
  }

  /** Plugin `a` has a command with alias `x`; `system` comes later and declares the
      command `x`. Loading and unloading `system` does not bring the alias back,
      and unloading `a` takes the command of `system` away. */
  lemma LateSystemClashes(after: Registry)
    ensures var a, sys := [CommandDecl("c", {"x"}, true)], [CommandDecl("x", {}, true)];
      var first := RegisterAll(Progress(Registry(map[], map[]), {}), "a", map[], map[], a).progress.reg;
      var both := RegisterAll(Progress(first, {}), "system", map[], map["c" := "a", "x" := "a"], sys).progress.reg;
      && first.commands["x"].plugin == "a" && both.commands["x"].plugin == "system"
      && (Unregistered(both, after, "system") ==> "x" !in after.commands)
      && (Unregistered(both, after, "a") ==> "x" !in after.commands)
  {
    var a, sys := CommandDecl("c", {"x"}, true), CommandDecl("x", {}, true);
    var start := Registry(map[], map[]);
    assert KeptAliases("a", map[], a) == {"x"};
    var first := Enter(start, Command("c", {"x"}, "a"));
    assert RegisterAll(Progress(start, {}), "a", map[], map[], [a])
        == RegisterNext(Progress(start, {}), "a", map[], map[], a);
    var claims := map["c" := "a", "x" := "a"];
    assert KeptAliases("system", claims, sys) == {};
    var both := Enter(first, Command("x", {}, "system"));
    assert RegisterAll(Progress(first, {}), "system", map[], claims, [sys])
        == RegisterNext(Progress(first, {}), "system", map[], claims, sys);
    assert "x" in NamesOf(both, "a") && "x" in NamesOf(both, "system");
  }

  // ---------------------------------------------------------------- loading a single plugin

  /** The actions of a plugin loaded on its own, judged by the current claims. */
  function ResolutionAlone(claims: map<string, string>, name: string, m: Manifest): map<string, Action> {
    map x | x in DeclaredNames(m.AllCommands()) ::
      if x in m.conflicts && m.conflicts[x] == SkipIt then Skip
      else if x !in claims || claims[x] == name then Keep else Rename
  }

  /** On its own a plugin is told to skip what its manifest asks to skip, otherwise to
      keep exactly the names that nobody else has, and to rename the others. */
  lemma AloneSays(claims: map<string, string>, name: string, m: Manifest, c: CommandDecl)
    requires c in m.AllCommands()
    ensures var told := ResolutionAlone(claims, name, m);
      var free := c.name !in claims || claims[c.name] == name;
      && c.name in told
      && (told[c.name] == Skip <==> AsksToSkip(m, c.name))
      && (told[c.name] == Keep <==> !AsksToSkip(m, c.name) && free)
      && (told[c.name] == Rename <==> !AsksToSkip(m, c.name) && !free)
  {
  }

  /** A plugin loaded on its own takes no name from anyone, unless one of its
      generated dotted names is already in use; unloading it then restores the table. */
  lemma LoneLoadTakesNothing(start: Registry, winners: map<string, string>, claims: map<string, string>,
                             q: string, m: Manifest, after: Registry)
    requires q != "" && q !in start.byPlugin && ClaimsOf(start.commands, winners, claims)
    requires forall x :: x in start.commands ==>
      start.commands[x].plugin != q && x in Names(start.commands[x])
      && start.commands[x].name in start.commands && start.commands[start.commands[x].name] == start.commands[x]
    requires forall c :: c in m.AllCommands() ==> q + "." + c.name !in start.commands
    requires var actions := ResolutionAlone(claims, q, m);
      var o := RegisterFeatures(Progress(start, {}), q, actions, claims, m.EffectiveFeatures());
      Unregistered(o.progress.reg, after, q)
    ensures var actions := ResolutionAlone(claims, q, m);
      var reg := RegisterFeatures(Progress(start, {}), q, actions, claims, m.EffectiveFeatures()).progress.reg;
      forall x :: x in start.commands ==> x in reg.commands && reg.commands[x] == start.commands[x]
    ensures after == start
  {
    var actions := ResolutionAlone(claims, q, m);
    var features, cs := m.EffectiveFeatures(), m.AllCommands();
    var n := RegisterFeaturesKeeps(start, q, actions, claims, features);
    var pr := RegisterFeatures(Progress(start, {}), q, actions, claims, features).progress;
    forall x | x in start.commands ensures x in claims && claims[x] != q {
      var key := winners[start.commands[x].name];
      assert start.commands[key] == start.commands[x];
      assert Backed(start.commands, winners, claims, x);
    }
    forall x | x in pr.registered ensures x !in start.commands {
      LoneNameIsFresh(start, claims, q, m, cs[..n], pr, x);
    }
    UnloadUndoes(start, q, actions, claims, features, after);
  }

  lemma LoneNameIsFresh(start: Registry, claims: map<string, string>, q: string, m: Manifest,
                        done: seq<CommandDecl>, pr: Progress, x: string)
    requires Registering(start, q, ResolutionAlone(claims, q, m), claims, done, pr) && x in pr.registered
    requires forall c :: c in done ==> c in m.AllCommands()
    requires forall y :: y in start.commands ==> y in claims && claims[y] != q
    requires forall c :: c in m.AllCommands() ==> q + "." + c.name !in start.commands
    ensures x !in start.commands
  {
    var actions := ResolutionAlone(claims, q, m);
    assert Placed(q, actions, claims, done, pr, x);
    var cmd := pr.reg.commands[x];
    var c :| c in done && ActionOf(actions, c) != Skip && Effective(q, actions, c) == cmd.name
          && cmd.aliases <= KeptAliases(q, claims, c);
    assert c.name in actions;
  }
}

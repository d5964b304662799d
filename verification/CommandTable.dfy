/** Command names of plugins: who keeps a contested name, how a plugin's commands
    enter the shared name/alias table, and how they leave it again. */
module CommandTable {
  import opened Manifests
  import opened Options

  datatype Action = Keep | Rename | Skip

  datatype Command = Command(name: string, aliases: set<string>, plugin: string)

  /** `commands` maps every name and alias to its command; `byPlugin` lists the
      names a plugin has put there. */
  datatype Registry = Registry(commands: map<string, Command>, byPlugin: map<string, set<string>>)

  type ManifestMap = map<string, Manifest>

  function Names(c: Command): set<string> {
    {c.name} + c.aliases
  }

  function DeclNames(c: CommandDecl): set<string> {
    {c.name} + c.aliases
  }

  // ---------------------------------------------------------------- who keeps a name

  function DeclaredIn(cs: seq<CommandDecl>): set<string> {
    set c, x | c in cs && x in DeclNames(c) :: x
  }

  function Declared(m: Manifest): set<string> {
    DeclaredIn(m.AllCommands())
  }

  function FirstDeclarer(order: seq<string>, manifests: ManifestMap, x: string): (r: Option<string>)
    requires forall p :: p in order ==> p in manifests
    ensures r.Some? ==> r.value in order && x in Declared(manifests[r.value])
    ensures r.None? ==> forall p :: p in order ==> x !in Declared(manifests[p])
  {
    if order == [] then None
    else
      var earlier := FirstDeclarer(order[..|order| - 1], manifests, x);
      var last := order[|order| - 1];
      if earlier.Some? then earlier
      else if x in Declared(manifests[last]) then Some(last) else None
  }

  /** `system` keeps every name it declares; any other name goes to the first
      plugin in load order that declares it. */
  function Keeper(order: seq<string>, manifests: ManifestMap, x: string): Option<string>
    requires forall p :: p in order ==> p in manifests
  {
    if "system" in order && x in Declared(manifests["system"]) then Some("system")
    else FirstDeclarer(order, manifests, x)
  }

  function ActionFor(order: seq<string>, manifests: ManifestMap, p: string, name: string): Action
    requires p in manifests && forall q :: q in order ==> q in manifests
  {
    if name in manifests[p].conflicts && manifests[p].conflicts[name] == SkipIt then Skip
    else if Keeper(order, manifests, name) == Some(p) then Keep
    else Rename
  }

  /** The effect on the claims of a plugin declaring the names `xs`. */
  function ClaimSet(claims: map<string, string>, plugin: string, xs: set<string>): map<string, string> {
    claims + map x | x in xs && (x !in claims || plugin == "system") :: plugin
  }

  function ClaimsAfter(order: seq<string>, manifests: ManifestMap): map<string, string>
    requires forall p :: p in order ==> p in manifests
  {
    if order == [] then map[]
    else
      var last := order[|order| - 1];
      ClaimSet(ClaimsAfter(order[..|order| - 1], manifests), last, Declared(manifests[last]))
  }

  lemma {:induction false} ClaimsAreKeepers(order: seq<string>, manifests: ManifestMap, x: string)
    requires forall p :: p in order ==> p in manifests
    ensures x in ClaimsAfter(order, manifests) <==> Keeper(order, manifests, x).Some?
    ensures x in ClaimsAfter(order, manifests) ==>
      Keeper(order, manifests, x) == Some(ClaimsAfter(order, manifests)[x])
  {
    if order != [] {
      var init := order[..|order| - 1];
      assert order == init + [order[|order| - 1]];
      ClaimsAreKeepers(init, manifests, x);
    }
  }

  lemma ClaimOne(claims: map<string, string>, plugin: string, name: string)
    ensures ClaimSet(claims, plugin, {name}) ==
      if name !in claims || (plugin == "system" && claims[name] != "system") then claims[name := plugin] else claims
  {
  }

  lemma ClaimSetCompose(claims: map<string, string>, plugin: string, xs: set<string>, ys: set<string>)
    ensures ClaimSet(ClaimSet(claims, plugin, xs), plugin, ys) == ClaimSet(claims, plugin, xs + ys)
  {
  }

  method ClaimNames(claims: map<string, string>, plugin: string, c: CommandDecl) returns (r: map<string, string>)
    ensures r == ClaimSet(claims, plugin, DeclNames(c))
  {
    r := claims;
    var rest := DeclNames(c);
    ghost var done: set<string> := {};
    while rest != {}
      invariant done + rest == DeclNames(c)
      invariant r == ClaimSet(claims, plugin, done)
    {
      var name :| name in rest;
      ClaimOne(r, plugin, name);
      ClaimSetCompose(claims, plugin, done, {name});
      if name !in r || (plugin == "system" && r[name] != "system") {
        r := r[name := plugin];
      }
      rest, done := rest - {name}, done + {name};
    }
    assert done == DeclNames(c);
  }

  lemma DeclaredAppend(cs: seq<CommandDecl>, c: CommandDecl)
    ensures DeclaredIn(cs + [c]) == DeclaredIn(cs) + DeclNames(c)
  {
    assert forall d :: d in cs + [c] <==> d in cs || d == c;
  }

  lemma FlattenStep(features: seq<Feature>, i: nat, j: nat)
    requires i < |features| && j < |features[i].commands|
    ensures Flatten(features[..i]) + features[i].commands[..j] + [features[i].commands[j]]
         == Flatten(features[..i]) + features[i].commands[..j + 1]
  {
    assert features[i].commands[..j + 1] == features[i].commands[..j] + [features[i].commands[j]];
  }

  lemma FlattenWhole(features: seq<Feature>, i: nat)
    requires i < |features|
    ensures Flatten(features[..i]) + features[i].commands == Flatten(features[..i + 1])
  {
    assert features[..i + 1] == features[..i] + [features[i]];
    FlattenAppend(features[..i], features[i]);
  }

  method ClaimPlugin(start: map<string, string>, plugin: string, features: seq<Feature>)
      returns (claims: map<string, string>)
    ensures claims == ClaimSet(start, plugin, DeclaredIn(Flatten(features)))
  {
    claims := start;
    for i := 0 to |features|
      invariant claims == ClaimSet(start, plugin, DeclaredIn(Flatten(features[..i])))
    {
      var cs := features[i].commands;
      ghost var seen := Flatten(features[..i]);
      assert seen + cs[..0] == seen;
      for j := 0 to |cs|
        invariant claims == ClaimSet(start, plugin, DeclaredIn(seen + cs[..j]))
      {
        claims := ClaimNames(claims, plugin, cs[j]);
        ClaimSetCompose(start, plugin, DeclaredIn(seen + cs[..j]), DeclNames(cs[j]));
        DeclaredAppend(seen + cs[..j], cs[j]);
        FlattenStep(features, i, j);
      }
      assert cs[..|cs|] == cs;
      FlattenWhole(features, i);
    }
    assert features[..|features|] == features;
  }

  method CollectClaims(ordered: seq<string>, manifests: ManifestMap) returns (claims: map<string, string>)
    requires forall p :: p in ordered ==> p in manifests
    ensures claims == ClaimsAfter(ordered, manifests)
  {
    claims := map[];
    for k := 0 to |ordered|
      invariant claims == ClaimsAfter(ordered[..k], manifests)
    {
      var plugin := ordered[k];
      claims := ClaimPlugin(claims, plugin, manifests[plugin].EffectiveFeatures());
      assert ordered[..k + 1][..k] == ordered[..k];
    }
    assert ordered[..|ordered|] == ordered;
  }

  method Decide(ordered: seq<string>, manifests: ManifestMap, claims: map<string, string>, plugin: string, name: string)
      returns (action: Action)
    requires plugin in manifests && forall p :: p in ordered ==> p in manifests
    requires claims == ClaimsAfter(ordered, manifests)
    ensures action == ActionFor(ordered, manifests, plugin, name)
  {
    ClaimsAreKeepers(ordered, manifests, name);
    if name in manifests[plugin].conflicts && manifests[plugin].conflicts[name] == SkipIt {
      action := Skip;
    } else if !(name in claims && claims[name] == plugin) {
      action := Rename;
    } else {
      action := Keep;
    }
  }

  function DeclaredNames(cs: seq<CommandDecl>): set<string> {
    set c | c in cs :: c.name
  }

  lemma OneNameMore(cs: seq<CommandDecl>, j: nat)
    requires j < |cs|
    ensures DeclaredNames(cs[..j + 1]) == DeclaredNames(cs[..j]) + {cs[j].name}
  {
    assert cs[..j + 1] == cs[..j] + [cs[j]];
  }

  method ResolvePlugin(ordered: seq<string>, manifests: ManifestMap, claims: map<string, string>, plugin: string)
      returns (mine: map<string, Action>)
    requires plugin in manifests && forall p :: p in ordered ==> p in manifests
    requires claims == ClaimsAfter(ordered, manifests)
    ensures IsResolution(ordered, manifests, plugin, mine)
  {
    var cs := manifests[plugin].AllCommands();
    mine := map[];
    for j := 0 to |cs|
      invariant mine.Keys == DeclaredNames(cs[..j])
      invariant forall x :: x in mine ==> mine[x] == ActionFor(ordered, manifests, plugin, x)
    {
      var action := Decide(ordered, manifests, claims, plugin, cs[j].name);
      mine := mine[cs[j].name := action];
      OneNameMore(cs, j);
    }
    assert cs[..|cs|] == cs;
  }

  /** The manifest asks for commands named `x` not to be registered. */
  predicate AsksToSkip(m: Manifest, x: string) {
    x in m.conflicts && m.conflicts[x] == SkipIt
  }

  /** Some command of the manifest goes by `x`. */
  ghost predicate GoesBy(m: Manifest, x: string) {
    exists c :: c in m.AllCommands() && (c.name == x || x in c.aliases)
  }

  /** The k-th plugin is `system`, or it comes first among those that go by `x` and
      `system` does not. */
  ghost predicate FirstToGoBy(order: seq<string>, manifests: ManifestMap, k: nat, x: string)
    requires k < |order| && forall q :: q in order ==> q in manifests
  {
    order[k] == "system"
    || (!("system" in order && GoesBy(manifests["system"], x))
        && forall i :: 0 <= i < k ==> !GoesBy(manifests[order[i]], x))
  }

  lemma GoesByDeclared(m: Manifest, x: string)
    ensures GoesBy(m, x) <==> x in Declared(m)
  {
    if c :| c in m.AllCommands() && (c.name == x || x in c.aliases) {
      assert x in DeclNames(c);
    }
    if x in Declared(m) {
      var c :| c in m.AllCommands() && x in DeclNames(c);
    }
  }

  /** The first declarer has a first position in the order, and nobody in front of it declares the name. */
  lemma {:induction false} FirstDeclarerAt(order: seq<string>, manifests: ManifestMap, x: string) returns (k: nat)
    requires forall q :: q in order ==> q in manifests
    ensures k <= |order| && (k < |order| <==> FirstDeclarer(order, manifests, x).Some?)
    ensures k < |order| ==> FirstDeclarer(order, manifests, x) == Some(order[k]) && x in Declared(manifests[order[k]])
    ensures forall i :: 0 <= i < k ==> x !in Declared(manifests[order[i]])
  {
    if order == [] {
      k := 0;
    } else {
      var init := order[..|order| - 1];
      var earlier := FirstDeclarerAt(init, manifests, x);
      k := if earlier == |init| && x !in Declared(manifests[order[|init|]]) then |order| else earlier;
      forall i | 0 <= i < k ensures x !in Declared(manifests[order[i]]) {
        if i < |init| {
          assert order[i] == init[i];
        } else {
          assert order[i] == order[|init|];
        }
      }
    }
  }

  lemma FirstDeclarerIs(order: seq<string>, manifests: ManifestMap, k: nat, x: string)
    requires k < |order| && order[k] !in order[..k] && forall q :: q in order ==> q in manifests
    requires x in Declared(manifests[order[k]])
    ensures FirstDeclarer(order, manifests, x) == Some(order[k])
       <==> forall i :: 0 <= i < k ==> x !in Declared(manifests[order[i]])
  {
    var first := FirstDeclarerAt(order, manifests, x);
    assert first <= k;
    assert first < k ==> order[first] in order[..k];
  }

  /** What the k-th plugin is told about one of its commands: to skip it exactly when
      its manifest asks for that, otherwise to keep it exactly when it is the
      first to go by that name. */
  ghost predicate ToldRight(order: seq<string>, manifests: ManifestMap, k: nat, c: CommandDecl,
                            mine: map<string, Action>)
    requires k < |order| && forall q :: q in order ==> q in manifests
  {
    var m := manifests[order[k]];
    && c.name in mine
    && (mine[c.name] == Skip <==> AsksToSkip(m, c.name))
    && (mine[c.name] == Keep <==> !AsksToSkip(m, c.name) && FirstToGoBy(order, manifests, k, c.name))
    && (mine[c.name] == Rename <==> !AsksToSkip(m, c.name) && !FirstToGoBy(order, manifests, k, c.name))
  }

  lemma ResolutionIsRight(order: seq<string>, manifests: ManifestMap, k: nat, c: CommandDecl, mine: map<string, Action>)
    requires k < |order| && order[k] !in order[..k] && forall q :: q in order ==> q in manifests
    requires c in manifests[order[k]].AllCommands() && IsResolution(order, manifests, order[k], mine)
    ensures ToldRight(order, manifests, k, c, mine)
  {
    var x := c.name;
    assert GoesBy(manifests[order[k]], x);
    GoesByDeclared(manifests[order[k]], x);
    if "system" in order {
      GoesByDeclared(manifests["system"], x);
    }
    forall i | 0 <= i < k ensures GoesBy(manifests[order[i]], x) <==> x in Declared(manifests[order[i]]) {
      GoesByDeclared(manifests[order[i]], x);
    }
    FirstDeclarerIs(order, manifests, k, x);
  }

  /** Every command of every plugin is told keep, rename or skip. */
  method ComputeResolution(ordered: seq<string>, manifests: ManifestMap)
      returns (actions: map<string, map<string, Action>>)
    requires forall p :: p in ordered ==> p in manifests
    ensures actions.Keys == set p | p in ordered
    ensures forall p :: p in ordered ==> IsResolution(ordered, manifests, p, actions[p])
    ensures forall k, c {:trigger ToldRight(ordered, manifests, k, c, actions[ordered[k]])} ::
      0 <= k < |ordered| && ordered[k] !in ordered[..k] && c in manifests[ordered[k]].AllCommands() ==>
        ToldRight(ordered, manifests, k, c, actions[ordered[k]])
  {
    var claims := CollectClaims(ordered, manifests);
    actions := map[];
    for k := 0 to |ordered|
      invariant actions.Keys == set p | p in ordered[..k]
      invariant forall p :: p in ordered[..k] ==> IsResolution(ordered, manifests, p, actions[p])
    {
      var mine := ResolvePlugin(ordered, manifests, claims, ordered[k]);
      actions := actions[ordered[k] := mine];
      assert ordered[..k + 1] == ordered[..k] + [ordered[k]];
    }
    assert ordered[..|ordered|] == ordered;
    forall k, c | 0 <= k < |ordered| && ordered[k] !in ordered[..k] && c in manifests[ordered[k]].AllCommands()
      ensures ToldRight(ordered, manifests, k, c, actions[ordered[k]])
    {
      ResolutionIsRight(ordered, manifests, k, c, actions[ordered[k]]);
    }
  }

  ghost predicate IsResolution(order: seq<string>, manifests: ManifestMap, p: string, actions: map<string, Action>)
    requires p in manifests && forall q :: q in order ==> q in manifests
  {
    && actions.Keys == DeclaredNames(manifests[p].AllCommands())
    && forall x :: x in actions ==> actions[x] == ActionFor(order, manifests, p, x)
  }

  // ---------------------------------------------------------------- registering one plugin

  datatype LoadError =
    | HandlerMissing(command: string)
    | DuplicateName(name: string)
    | DuplicateAlias(command: string)
    | ExtrasFailed

  /** A registration in progress: the table so far and the names this plugin has put in it. */
  datatype Progress = Progress(reg: Registry, registered: set<string>)

  datatype Outcome = Done(progress: Progress) | Raised(progress: Progress, error: LoadError)

  function Enter(reg: Registry, c: Command): Registry {
    Registry(Bound(reg.commands, Names(c), c), Recorded(reg, c.plugin, Names(c)))
  }

  /** The table with every name of `xs` leading to `c`. */
  function Bound(commands: map<string, Command>, xs: set<string>, c: Command): map<string, Command> {
    commands + map x | x in xs :: c
  }

  lemma BoundStep(commands: map<string, Command>, xs: set<string>, x: string, c: Command)
    ensures Bound(commands, xs, c)[x := c] == Bound(commands, xs + {x}, c)
  {
  }

  lemma RecordedStep(reg: Registry, plugin: string, xs: set<string>, x: string)
    requires plugin != ""
    ensures var before := Recorded(reg, plugin, xs);
      before[plugin := before[plugin] + {x}] == Recorded(reg, plugin, xs + {x})
  {
    assert NamesOf(reg, plugin) + xs + {x} == NamesOf(reg, plugin) + (xs + {x});
  }

  function Recorded(reg: Registry, plugin: string, names: set<string>): map<string, set<string>> {
    if plugin == "" then reg.byPlugin else reg.byPlugin[plugin := NamesOf(reg, plugin) + names]
  }

  function NamesOf(reg: Registry, plugin: string): set<string> {
    if plugin in reg.byPlugin then reg.byPlugin[plugin] else {}
  }

  function ActionOf(actions: map<string, Action>, c: CommandDecl): Action {
    if c.name in actions then actions[c.name] else Keep
  }

  function Effective(plugin: string, actions: map<string, Action>, c: CommandDecl): string {
    if ActionOf(actions, c) == Rename then plugin + "." + c.name else c.name
  }

  function KeptAliases(plugin: string, claims: map<string, string>, c: CommandDecl): set<string> {
    set a | a in c.aliases && (a !in claims || claims[a] == plugin)
  }

  function RegisterNext(pr: Progress, plugin: string, actions: map<string, Action>,
                        claims: map<string, string>, c: CommandDecl): Outcome
  {
    if ActionOf(actions, c) == Skip then Done(pr)
    else if !c.handlerFound then Raised(pr, HandlerMissing(c.name))
    else
      var effective := Effective(plugin, actions, c);
      var kept := KeptAliases(plugin, claims, c);
      if effective in pr.registered then Raised(pr, DuplicateName(effective))
      else if c.aliases * pr.registered != {} then Raised(pr, DuplicateAlias(c.name))
      else Done(Progress(Enter(pr.reg, Command(effective, kept, plugin)), pr.registered + {effective} + kept))
  }

  /** One command is passed over, refused, or entered under the name it is told to
      go by with the aliases that nobody else claims. */
  lemma OneCommandSays(pr: Progress, plugin: string, actions: map<string, Action>, claims: map<string, string>,
                       c: CommandDecl, go: string)
    requires go == if c.name in actions && actions[c.name] == Rename then plugin + "." + c.name else c.name
    ensures var skipped := c.name in actions && actions[c.name] == Skip;
      var o := RegisterNext(pr, plugin, actions, claims, c);
      var twice := exists a :: a in c.aliases && a in pr.registered;
      && (skipped ==> o == Done(pr))
      && (!skipped && !c.handlerFound ==> o == Raised(pr, HandlerMissing(c.name)))
      && (!skipped && c.handlerFound && go in pr.registered ==> o == Raised(pr, DuplicateName(go)))
      && (!skipped && c.handlerFound && go !in pr.registered && twice ==> o == Raised(pr, DuplicateAlias(c.name)))
      && (!skipped && c.handlerFound && go !in pr.registered && !twice ==>
            && o.Done? && go in o.progress.reg.commands && go in o.progress.registered
            && var cmd := o.progress.reg.commands[go];
            && cmd.name == go && cmd.plugin == plugin
            && (forall a :: a in cmd.aliases <==> a in c.aliases && (a in claims ==> claims[a] == plugin))
            && (forall x :: x in o.progress.registered <==> x in pr.registered || x == go || x in cmd.aliases)
            && (forall x :: x == go || x in cmd.aliases ==>
                  x in o.progress.reg.commands && o.progress.reg.commands[x] == cmd)
            && (forall x :: x != go && x !in cmd.aliases ==>
                  && (x in o.progress.reg.commands <==> x in pr.reg.commands)
                  && (x in pr.reg.commands ==> o.progress.reg.commands[x] == pr.reg.commands[x])))
  {
    assert (exists a :: a in c.aliases && a in pr.registered) <==> c.aliases * pr.registered != {} by {
      if a :| a in c.aliases && a in pr.registered { assert a in c.aliases * pr.registered; }
      if a :| a in c.aliases * pr.registered { assert a in c.aliases && a in pr.registered; }
    }
  }

  function RegisterAll(pr: Progress, plugin: string, actions: map<string, Action>,
                       claims: map<string, string>, cs: seq<CommandDecl>): Outcome
    decreases |cs|
  {
    if cs == [] then Done(pr)
    else
      var next := RegisterNext(pr, plugin, actions, claims, cs[0]);
      if next.Raised? then next else RegisterAll(next.progress, plugin, actions, claims, cs[1..])
  }

  /** Registering two lists in a row; a failure in the first ends the run. */
  lemma {:induction false} RegisterAllAppend(pr: Progress, plugin: string, actions: map<string, Action>,
                                             claims: map<string, string>, cs: seq<CommandDecl>, ds: seq<CommandDecl>)
    ensures var first := RegisterAll(pr, plugin, actions, claims, cs);
      RegisterAll(pr, plugin, actions, claims, cs + ds) ==
      if first.Raised? then first else RegisterAll(first.progress, plugin, actions, claims, ds)
    decreases |cs|
  {
    if cs == [] {
      assert cs + ds == ds;
    } else {
      assert (cs + ds)[0] == cs[0] && (cs + ds)[1..] == cs[1..] + ds;
      var next := RegisterNext(pr, plugin, actions, claims, cs[0]);
      if next.Done? {
        RegisterAllAppend(next.progress, plugin, actions, claims, cs[1..], ds);
      }
    }
  }

  /** One command after the first `j`; if it fails, so does the whole list. */
  lemma RegisterOneMore(pr: Progress, plugin: string, actions: map<string, Action>,
                        claims: map<string, string>, cs: seq<CommandDecl>, j: nat)
    requires j < |cs|
    ensures var first := RegisterAll(pr, plugin, actions, claims, cs[..j]);
      var more := RegisterAll(pr, plugin, actions, claims, cs[..j + 1]);
      && (first.Done? ==> more == RegisterNext(first.progress, plugin, actions, claims, cs[j]))
      && (more.Raised? ==> RegisterAll(pr, plugin, actions, claims, cs) == more)
  {
    assert cs[..j + 1] == cs[..j] + [cs[j]];
    assert cs == cs[..j + 1] + cs[j + 1..];
    RegisterAllAppend(pr, plugin, actions, claims, cs[..j], [cs[j]]);
    RegisterAllAppend(pr, plugin, actions, claims, cs[..j + 1], cs[j + 1..]);
    assert [cs[j]][1..] == [];
  }

  /** Feature by feature: its commands, then its tasks and listeners. */
  function RegisterFeatures(pr: Progress, plugin: string, actions: map<string, Action>,
                            claims: map<string, string>, features: seq<Feature>): Outcome
    decreases |features|
  {
    if features == [] then Done(pr)
    else
      var o := RegisterAll(pr, plugin, actions, claims, features[0].commands);
      if o.Raised? then o
      else if features[0].extras == ExtrasRaise then Raised(o.progress, ExtrasFailed)
      else RegisterFeatures(o.progress, plugin, actions, claims, features[1..])
  }

  /** The commands that are reached when the first failing tasks or listeners end the load. */
  function Reached(features: seq<Feature>): seq<CommandDecl> {
    if features == [] then []
    else features[0].commands + if features[0].extras == ExtrasRaise then [] else Reached(features[1..])
  }

  predicate ExtrasHold(features: seq<Feature>) {
    forall i :: 0 <= i < |features| ==> features[i].extras != ExtrasRaise
  }

  lemma {:induction false} ReachedPrefix(features: seq<Feature>)
    ensures Reached(features) <= Flatten(features)
    ensures ExtrasHold(features) ==> Reached(features) == Flatten(features)
  {
    if features != [] {
      ReachedPrefix(features[1..]);
    }
  }

  /** Registering feature by feature is registering the commands that are
      reached as one list; a failing task or listener makes it raise at the end. */
  lemma {:induction false} FeaturesAreList(pr: Progress, plugin: string, actions: map<string, Action>,
                                           claims: map<string, string>, features: seq<Feature>)
    ensures var o := RegisterAll(pr, plugin, actions, claims, Reached(features));
      RegisterFeatures(pr, plugin, actions, claims, features) ==
      if o.Done? && !ExtrasHold(features) then Raised(o.progress, ExtrasFailed) else o
    decreases |features|
  {
    if features != [] {
      var first := features[0];
      var o := RegisterAll(pr, plugin, actions, claims, first.commands);
      if first.extras == ExtrasRaise {
        assert first.commands + [] == first.commands;
      } else {
        RegisterAllAppend(pr, plugin, actions, claims, first.commands, Reached(features[1..]));
        assert ExtrasHold(features) <==> ExtrasHold(features[1..]) by {
          assert features == [first] + features[1..];
        }
        if o.Done? {
          FeaturesAreList(o.progress, plugin, actions, claims, features[1..]);
        }
      }
    }
  }

  // ---------------------------------------------------------------- the registry object

  /** Owners recorded for names, read off the table through `winners`, which
      picks one table entry per command name. The plugin manager visits the commands
      by priority; which entry wins a shared command name is left open here. */
  ghost predicate ClaimsOf(commands: map<string, Command>, winners: map<string, string>, claims: map<string, string>) {
    && (forall n :: n in commands ==> commands[n].name in winners)
    && (forall c :: c in winners ==>
          && winners[c] in commands && commands[winners[c]].name == c
          && Names(commands[winners[c]]) <= claims.Keys)
    && (forall x {:trigger Backed(commands, winners, claims, x)} ::
          x in claims ==> Backed(commands, winners, claims, x))
  }

  /** The claim on `x` comes from a command that goes by `x`. */
  ghost predicate Backed(commands: map<string, Command>, winners: map<string, string>, claims: map<string, string>,
                         x: string) {
    && x in claims
    && exists c :: c in winners && winners[c] in commands && x in Names(commands[winners[c]])
                && claims[x] == commands[winners[c]].plugin
  }

  /** `after` is a possible result of unregistering `plugin`: its names are gone,
      aliases of the commands found under them may be gone as well, and nothing else changed. */
  ghost predicate Unregistered(before: Registry, after: Registry, plugin: string) {
    var names := NamesOf(before, plugin);
    && after.byPlugin == before.byPlugin - {plugin}
    && after.commands.Keys <= before.commands.Keys - names
    && (forall x :: x in before.commands && x !in names && x !in AliasesUnder(before, names) ==> x in after.commands)
    && (forall x :: x in after.commands ==> after.commands[x] == before.commands[x])
  }

  ghost function AliasesUnder(reg: Registry, names: set<string>): set<string> {
    set n, a | n in names && n in reg.commands && a in reg.commands[n].aliases :: a
  }

  class CommandRegistry {
    var commands: map<string, Command>
    var byPlugin: map<string, set<string>>

    constructor ()
      ensures State() == Registry(map[], map[])
    {
      commands, byPlugin := map[], map[];
    }

    function State(): Registry
      reads this
    {
      Registry(commands, byPlugin)
    }

    method Register(name: string, aliases: set<string>, plugin: string) returns (c: Command)
      modifies this
      ensures c == Command(name, aliases, plugin)
      ensures State() == Enter(old(State()), c)
      ensures forall x :: x == name || x in aliases ==> x in commands && commands[x] == c
      ensures forall x :: x != name && x !in aliases ==>
        (x in commands <==> x in old(commands)) && (x in commands ==> commands[x] == old(commands)[x])
      ensures plugin == "" ==> byPlugin == old(byPlugin)
      ensures plugin != "" ==> byPlugin == old(byPlugin)[plugin :=
        (if plugin in old(byPlugin) then old(byPlugin)[plugin] else {}) + ({name} + aliases)]
    {
      c := Command(name, aliases, plugin);
      commands := commands[name := c];
      assert commands == Bound(old(commands), {name}, c);
      if plugin != "" {
        byPlugin := byPlugin[plugin := (if plugin in byPlugin then byPlugin[plugin] else {}) + {name}];
      }
      var rest := aliases;
      ghost var done := {name};
      while rest != {}
        invariant done + rest == Names(c)
        invariant commands == Bound(old(commands), done, c)
        invariant byPlugin == Recorded(old(State()), plugin, done)
      {
        var alias :| alias in rest;
        BoundStep(old(commands), done, alias, c);
        commands := commands[alias := c];
        if plugin != "" {
          RecordedStep(old(State()), plugin, done, alias);
          byPlugin := byPlugin[plugin := byPlugin[plugin] + {alias}];
        }
        rest, done := rest - {alias}, done + {alias};
      }
      assert done == Names(c);
    }

    method UnregisterPlugin(plugin: string) returns (count: nat)
      modifies this
      ensures Unregistered(old(State()), State(), plugin)
      ensures count == |NamesOf(old(State()), plugin)|
    {
      var names := if plugin in byPlugin then byPlugin[plugin] else {};
      count := |names|;
      byPlugin := byPlugin - {plugin};
      var rest := names;
      while rest != {}
        invariant rest <= names
        invariant byPlugin == old(byPlugin) - {plugin}
        invariant commands.Keys <= old(commands).Keys - (names - rest)
        invariant forall x ::
          x in old(commands) && x !in names && x !in AliasesUnder(old(State()), names) ==> x in commands
        invariant forall x :: x in commands ==> commands[x] == old(commands)[x]
      {
        var name :| name in rest;
        if name in commands {
          var aliases := commands[name].aliases;
          assert forall a :: a in aliases ==> a in AliasesUnder(old(State()), names);
          commands := commands - {name} - aliases;
        }
        rest := rest - {name};
      }
    }

    method CurrentClaims() returns (claims: map<string, string>, ghost winners: map<string, string>)
      ensures ClaimsOf(commands, winners, claims)
    {
      var chosen: map<string, string> := map[];
      var keys := commands.Keys;
      while keys != {}
        invariant keys <= commands.Keys
        invariant forall n :: n in chosen ==> chosen[n] in commands && commands[chosen[n]].name == n
        invariant forall n :: n in commands && n !in keys ==> commands[n].name in chosen
      {
        var key :| key in keys;
        chosen := chosen[commands[key].name := key];
        keys := keys - {key};
      }
      claims := map[];
      var names := chosen.Keys;
      while names != {}
        invariant names <= chosen.Keys
        invariant forall x :: x in claims ==> Backed(commands, chosen, claims, x)
        invariant forall n :: n in chosen && n !in names ==> Names(commands[chosen[n]]) <= claims.Keys
      {
        var name :| name in names;
        var winner := commands[chosen[name]];
        ghost var before := claims;
        claims := claims + map x | x in Names(winner) :: winner.plugin;
        forall x | x in claims ensures Backed(commands, chosen, claims, x) {
          if x !in Names(winner) {
            assert Backed(commands, chosen, before, x);
          }
        }
        names := names - {name};
      }
      winners := chosen;
    }

    /** Registers one declared command unless it is skipped or clashes with a
        name this plugin has already registered. */
    method RegisterDeclared(plugin: string, c: CommandDecl, action: Action,
                            owners: map<string, string>, registered: set<string>,
                            ghost actions: map<string, Action>) returns (o: Outcome)
      requires action == ActionOf(actions, c)
      modifies this
      ensures o == RegisterNext(Progress(old(State()), registered), plugin, actions, owners, c)
      ensures o.progress.reg == State()
    {
      if action == Skip {
        return Done(Progress(State(), registered));
      }
      if !c.handlerFound {
        return Raised(Progress(State(), registered), HandlerMissing(c.name));
      }
      var effective := if action == Rename then plugin + "." + c.name else c.name;
      if effective in registered {
        return Raised(Progress(State(), registered), DuplicateName(effective));
      }
      var kept: set<string> := {};
      var rest := c.aliases;
      ghost var done: set<string> := {};
      while rest != {}
        invariant done + rest == c.aliases && done !! rest
        invariant done !! registered
        invariant kept == set a | a in done && (a !in owners || owners[a] == plugin)
      {
        var alias :| alias in rest;
        if alias in registered {
          assert alias in c.aliases * registered;
          return Raised(Progress(State(), registered), DuplicateAlias(c.name));
        }
        if alias !in owners || owners[alias] == plugin {
          kept := kept + {alias};
        }
        rest, done := rest - {alias}, done + {alias};
      }
      assert done == c.aliases;
      assert c.aliases * registered == {};
      assert kept == KeptAliases(plugin, owners, c);
      var command := Register(effective, kept, plugin);
      o := Done(Progress(State(), registered + {effective} + kept));
    }

    method RegisterFeature(plugin: string, cs: seq<CommandDecl>, actions: map<string, Action>,
                           owners: map<string, string>, registered: set<string>) returns (o: Outcome)
      modifies this
      ensures o == RegisterAll(Progress(old(State()), registered), plugin, actions, owners, cs)
      ensures o.progress.reg == State()
    {
      ghost var start := Progress(State(), registered);
      o := Done(Progress(State(), registered));
      for j := 0 to |cs|
        invariant o.Done? && o.progress.reg == State()
        invariant o == RegisterAll(start, plugin, actions, owners, cs[..j])
      {
        var action := if cs[j].name in actions then actions[cs[j].name] else Keep;
        o := RegisterDeclared(plugin, cs[j], action, owners, o.progress.registered, actions);
        RegisterOneMore(start, plugin, actions, owners, cs, j);
        if o.Raised? {
          return;
        }
      }
      assert cs[..|cs|] == cs;
    }

    /** Registers one plugin, feature by feature. */
    method RegisterDeclarative(plugin: string, features: seq<Feature>, actions: map<string, Action>)
        returns (o: Outcome, ghost claims: map<string, string>, ghost winners: map<string, string>)
      modifies this
      ensures ClaimsOf(old(commands), winners, claims)
      ensures o == RegisterFeatures(Progress(old(State()), {}), plugin, actions, claims, features)
      ensures o.progress.reg == State()
    {
      var owners;
      owners, winners := CurrentClaims();
      claims := owners;
      o := Done(Progress(State(), {}));
      ghost var start := o.progress;
      for i := 0 to |features|
        invariant o.Done? && o.progress.reg == State()
        invariant RegisterFeatures(start, plugin, actions, claims, features)
               == RegisterFeatures(o.progress, plugin, actions, claims, features[i..])
      {
        assert features[i..][0] == features[i] && features[i..][1..] == features[i + 1..];
        o := RegisterFeature(plugin, features[i].commands, actions, owners, o.progress.registered);
        if o.Raised? {
          return;
        }
        if features[i].extras == ExtrasRaise {
          return Raised(o.progress, ExtrasFailed), claims, winners;
        }
      }
      assert features[|features|..] == [];
    }
  }
}

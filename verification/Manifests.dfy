/** The part of a plugin manifest that the loader reads: dependencies, conflict
    overrides and the commands of each feature. */
module Manifests {

  datatype Result<+T, +E> = Success(value: T) | Failure(error: E)

  /** One declared command. `handlerFound` says whether the dotted handler
      symbol resolves in the plugin's module. */
  datatype CommandDecl = CommandDecl(name: string, aliases: set<string>, handlerFound: bool)

  /** The tasks and listeners declared beside some commands: none, or whether
      registering them raises. */
  datatype Extras = NoExtras | ExtrasWork | ExtrasRaise

  datatype Feature = Feature(commands: seq<CommandDecl>, extras: Extras)

  datatype Override = RenameIt | SkipIt

  datatype Manifest = Manifest(
    dependencies: set<string>,
    conflicts: map<string, Override>,
    features: seq<Feature>,
    commands: seq<CommandDecl>,
    extras: Extras)
  {
    /** Top-level declarations form one default feature when no feature is listed. */
    function EffectiveFeatures(): seq<Feature> {
      if features != [] then features
      else if commands != [] || extras != NoExtras then [Feature(commands, extras)]
      else []
    }

    function AllCommands(): seq<CommandDecl> {
      Flatten(EffectiveFeatures())
    }
  }

  function Flatten(features: seq<Feature>): seq<CommandDecl> {
    if features == [] then [] else features[0].commands + Flatten(features[1..])
  }

  lemma {:induction false} FlattenAppend(features: seq<Feature>, last: Feature)
    ensures Flatten(features + [last]) == Flatten(features) + last.commands
  {
    if features == [] {
      assert features + [last] == [last];
      assert Flatten([last]) == last.commands + Flatten([]);
    } else {
      assert (features + [last])[1..] == features[1..] + [last];
      FlattenAppend(features[1..], last);
    }
  }

  lemma {:induction false} FlattenSays(features: seq<Feature>, c: CommandDecl)
    ensures c in Flatten(features) <==> exists f :: f in features && c in f.commands
  {
    if features != [] {
      FlattenSays(features[1..], c);
      assert features == [features[0]] + features[1..];
    }
  }

  /** The commands of a plugin are those of its features, or the ones at the top when
      it lists no feature; the same goes for tasks and listeners that raise. */
  lemma EffectiveSays(m: Manifest, c: CommandDecl)
    ensures m.features != [] ==> (c in m.AllCommands() <==> exists f :: f in m.features && c in f.commands)
    ensures m.features == [] ==> (c in m.AllCommands() <==> c in m.commands)
    ensures (exists f :: f in m.EffectiveFeatures() && f.extras == ExtrasRaise) <==>
      if m.features != [] then exists f :: f in m.features && f.extras == ExtrasRaise else m.extras == ExtrasRaise
  {
    FlattenSays(m.EffectiveFeatures(), c);
    if m.features == [] && (m.commands != [] || m.extras != NoExtras) {
      var top := Feature(m.commands, m.extras);
      assert m.EffectiveFeatures() == [top] && top in [top];
    }
  }
}

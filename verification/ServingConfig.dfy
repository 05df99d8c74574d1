/**
 The model configs sent to TF Serving. `createModelConfig` builds them by
 appending to version lists that the lookup map and the configs share; the
 result is the grouping of the requested identifiers by name.
 */
module ServingConfig {
  import opened Models
  import opened Sequences

  /** What a model config asks TF Serving to load. */
  datatype Config = Config(name: string, versions: seq<int>)

  /** The names in order of first occurrence. */
  function Names(ids: seq<ModelIdentifier>): seq<string> {
    if ids == [] then []
    else
      var names, last := Names(ids[..|ids| - 1]), ids[|ids| - 1].modelName;
      if last in names then names else names + [last]
  }

  /** The versions requested under a name, in request order. */
  function VersionsOf(ids: seq<ModelIdentifier>, name: string): seq<int> {
    if ids == [] then []
    else
      var versions, last := VersionsOf(ids[..|ids| - 1], name), ids[|ids| - 1];
      if last.modelName == name then versions + [last.version] else versions
  }

  /** One config per name, with all its versions. */
  function GroupBy(ids: seq<ModelIdentifier>): seq<Config> {
    ConfigsFor(ids, Names(ids))
  }

  function ConfigsFor(ids: seq<ModelIdentifier>, names: seq<string>): (configs: seq<Config>)
    ensures |configs| == |names|
    ensures forall i :: 0 <= i < |names| ==> configs[i] == Config(names[i], VersionsOf(ids, names[i]))
  {
    if names == [] then []
    else [Config(names[0], VersionsOf(ids, names[0]))] + ConfigsFor(ids, names[1..])
  }

  lemma Extend(ids: seq<ModelIdentifier>, id: ModelIdentifier, name: string)
    ensures VersionsOf(ids + [id], name)
         == if id.modelName == name then VersionsOf(ids, name) + [id.version] else VersionsOf(ids, name)
    ensures Names(ids + [id])
         == if id.modelName in Names(ids) then Names(ids) else Names(ids) + [id.modelName]
  {
    assert (ids + [id])[..|ids|] == ids;
  }

  lemma {:induction false} NoVersions(ids: seq<ModelIdentifier>, name: string)
    requires name !in Names(ids)
    ensures VersionsOf(ids, name) == []
  {
    if ids != [] {
      NoVersions(ids[..|ids| - 1], name);
    }
  }

  /** A further version of a known name goes to the end of that name's config. */
  lemma GroupByAgain(ids: seq<ModelIdentifier>, id: ModelIdentifier, i: nat)
    requires id.modelName in Names(ids) && i < |Names(ids)|
    ensures |GroupBy(ids + [id])| == |GroupBy(ids)|
    ensures var c := GroupBy(ids)[i];
      GroupBy(ids + [id])[i] == if c.name == id.modelName then c.(versions := c.versions + [id.version]) else c
  {
    Extend(ids, id, Names(ids)[i]);
  }

  /** A new name gets a config of its own, at the end. */
  lemma GroupByNew(ids: seq<ModelIdentifier>, id: ModelIdentifier)
    requires id.modelName !in Names(ids)
    ensures GroupBy(ids + [id]) == GroupBy(ids) + [Config(id.modelName, [id.version])]
  {
    Extend(ids, id, id.modelName);
    NoVersions(ids, id.modelName);
    var n := |Names(ids)|;
    forall i | 0 <= i < n
      ensures GroupBy(ids + [id])[i] == GroupBy(ids)[i]
    {
      Extend(ids, id, Names(ids)[i]);
      assert Names(ids)[i] in Names(ids) && Names(ids + [id])[i] == Names(ids)[i];
    }
    assert GroupBy(ids + [id])[n] == Config(id.modelName, [id.version]);
  }

  /*
   * What the grouping means
   */

  /** The identifiers a config asks for. */
  function Tagged(name: string, versions: seq<int>): (ids: seq<ModelIdentifier>)
    ensures |ids| == |versions|
    ensures forall i :: 0 <= i < |versions| ==> ids[i] == ModelIdentifier(name, versions[i])
  {
    if versions == [] then [] else [ModelIdentifier(name, versions[0])] + Tagged(name, versions[1..])
  }

  /** Everything a list of configs asks for. */
  function Flatten(configs: seq<Config>): seq<ModelIdentifier> {
    if configs == [] then [] else Tagged(configs[0].name, configs[0].versions) + Flatten(configs[1..])
  }

  lemma {:induction false} FlattenSnoc(configs: seq<Config>, c: Config)
    ensures Flatten(configs + [c]) == Flatten(configs) + Tagged(c.name, c.versions)
  {
    if configs == [] {
      assert configs + [c] == [c];
    } else {
      assert (configs + [c])[1..] == configs[1..] + [c];
      FlattenSnoc(configs[1..], c);
    }
  }

  /** Appending a version to the one config of its name adds that identifier and nothing else. */
  lemma {:induction false} FlattenAgain(old': seq<Config>, new': seq<Config>, names: seq<string>, id: ModelIdentifier,
                                        x: ModelIdentifier)
    requires |old'| == |new'| == |names| && Distinct(names)
    requires forall i :: 0 <= i < |names| ==> old'[i].name == names[i]
    requires forall i :: 0 <= i < |names| ==>
      new'[i] == if names[i] == id.modelName then old'[i].(versions := old'[i].versions + [id.version]) else old'[i]
    ensures Count(Flatten(new'), x) == Count(Flatten(old'), x) + if id.modelName in names && x == id then 1 else 0
  {
    if names != [] {
      var before, after := Tagged(names[0], old'[0].versions), Tagged(names[0], new'[0].versions);
      FlattenAgain(old'[1..], new'[1..], names[1..], id, x);
      CountConcat(before, Flatten(old'[1..]), x);
      CountConcat(after, Flatten(new'[1..]), x);
      if names[0] == id.modelName {
        assert after == before + [id];
        CountConcat(before, [id], x);
      }
    }
  }

  lemma {:induction false} NamesDistinct(ids: seq<ModelIdentifier>)
    ensures Distinct(Names(ids))
  {
    if ids != [] {
      NamesDistinct(ids[..|ids| - 1]);
      DistinctConcat(Names(ids[..|ids| - 1]), [ids[|ids| - 1].modelName]);
    }
  }

  lemma {:induction false} FlattenCounts(ids: seq<ModelIdentifier>, x: ModelIdentifier)
    ensures Count(Flatten(GroupBy(ids)), x) == Count(ids, x)
  {
    if ids != [] {
      var before, id := ids[..|ids| - 1], ids[|ids| - 1];
      assert ids == before + [id];
      CountConcat(before, [id], x);
      FlattenCounts(before, x);
      if id.modelName in Names(before) {
        NamesDistinct(before);
        Extend(before, id, id.modelName);
        forall i | 0 <= i < |Names(before)|
          ensures GroupBy(ids)[i] == if Names(before)[i] == id.modelName
            then GroupBy(before)[i].(versions := GroupBy(before)[i].versions + [id.version]) else GroupBy(before)[i]
        {
          GroupByAgain(before, id, i);
        }
        FlattenAgain(GroupBy(before), GroupBy(ids), Names(before), id, x);
      } else {
        GroupByNew(before, id);
        FlattenSnoc(GroupBy(before), Config(id.modelName, [id.version]));
        assert Tagged(id.modelName, [id.version]) == [id];
        CountConcat(Flatten(GroupBy(before)), [id], x);
      }
    }
  }

  /** The configs together ask for exactly the requested identifiers, each as often as requested. */
  lemma FlattenGroupBy(ids: seq<ModelIdentifier>)
    ensures multiset(Flatten(GroupBy(ids))) == multiset(ids)
    ensures |Flatten(GroupBy(ids))| == |ids|
    ensures forall x :: x in Flatten(GroupBy(ids)) <==> x in ids
  {
    forall x: ModelIdentifier
      ensures Count(Flatten(GroupBy(ids)), x) == Count(ids, x)
    {
      FlattenCounts(ids, x);
    }
    SameCounts(Flatten(GroupBy(ids)), ids);
  }

  /** Where a name first occurs. */
  function FirstUse(ids: seq<ModelIdentifier>, name: string): (k: nat)
    ensures k <= |ids|
    ensures k < |ids| ==> ids[k].modelName == name
    ensures forall j :: 0 <= j < k ==> ids[j].modelName != name
  {
    if ids == [] || ids[0].modelName == name then 0 else 1 + FirstUse(ids[1..], name)
  }

  /** Names come in order of first occurrence, and none is missing or made up. */
  lemma {:induction false} NamesInOrder(ids: seq<ModelIdentifier>, i: nat, j: nat)
    requires i < j < |Names(ids)|
    ensures FirstUse(ids, Names(ids)[i]) < FirstUse(ids, Names(ids)[j]) < |ids|
  {
    var n := |ids| - 1;
    var before, last := ids[..n], ids[n].modelName;
    NamesUsed(before, Names(before)[i]);
    FirstUseOfPrefix(ids, Names(before)[i]);
    if j < |Names(before)| {
      NamesInOrder(before, i, j);
      NamesUsed(before, Names(before)[j]);
      FirstUseOfPrefix(ids, Names(before)[j]);
    } else {
      NamesUsed(before, last);
      FirstUseOfPrefix(ids, last);
    }
  }

  lemma {:induction false} NamesUsed(ids: seq<ModelIdentifier>, name: string)
    ensures name in Names(ids) <==> FirstUse(ids, name) < |ids|
  {
    if ids != [] {
      NamesUsed(ids[..|ids| - 1], name);
      FirstUseOfPrefix(ids, name);
    }
  }

  lemma FirstUseOfPrefix(ids: seq<ModelIdentifier>, name: string)
    requires ids != []
    ensures var n := |ids| - 1; var k := FirstUse(ids[..n], name);
      FirstUse(ids, name) == if k < n then k else if ids[n].modelName == name then n else |ids|
  {
    var n := |ids| - 1;
    var k, l := FirstUse(ids[..n], name), FirstUse(ids, name);
    assert forall j :: 0 <= j < n ==> ids[..n][j] == ids[j];
  }

  /** A config holds exactly the versions requested under its name. */
  lemma {:induction false} VersionsMembers(ids: seq<ModelIdentifier>, name: string, v: int)
    ensures v in VersionsOf(ids, name) <==> ModelIdentifier(name, v) in ids
  {
    if ids != [] {
      assert ids == ids[..|ids| - 1] + [ids[|ids| - 1]];
      VersionsMembers(ids[..|ids| - 1], name, v);
    }
  }

  /** The versions of a name come in the order of the request. */
  lemma {:induction false} VersionsInOrder(a: seq<ModelIdentifier>, id: ModelIdentifier, b: seq<ModelIdentifier>)
    ensures VersionsOf(a + [id] + b, id.modelName)
         == VersionsOf(a, id.modelName) + [id.version] + VersionsOf(b, id.modelName)
  {
    if b == [] {
      assert a + [id] + b == a + [id];
      Extend(a, id, id.modelName);
    } else {
      var n := |b| - 1;
      assert a + [id] + b == a + [id] + b[..n] + [b[n]];
      VersionsInOrder(a, id, b[..n]);
      Extend(a + [id] + b[..n], b[n], id.modelName);
    }
  }

  /** Without repeated identifiers in the request there is no repeated version in a config. */
  lemma {:induction false} VersionsDistinct(ids: seq<ModelIdentifier>, name: string)
    requires Distinct(ids)
    ensures Distinct(VersionsOf(ids, name))
  {
    if ids != [] {
      var before, last := ids[..|ids| - 1], ids[|ids| - 1];
      assert ids == before + [last];
      DistinctConcat(before, [last]);
      VersionsDistinct(before, name);
      VersionsMembers(before, name, last.version);
      DistinctConcat(VersionsOf(before, name), [last.version]);
    }
  }

  /*
   * The heap form
   */

  /** A version list, shared by reference. */
  class Specific {
    var versions: seq<int>

    constructor (version: int)
      ensures versions == [version]
    {
      versions := [version];
    }
  }

  datatype ModelConfig = ModelConfig(name: string, basePath: string, platform: string, specific: Specific)

  ghost predicate Represents(configs: seq<ModelConfig>, values: seq<Config>)
    reads set c | c in configs :: c.specific
  {
    && |configs| == |values|
    && forall i :: 0 <= i < |configs| ==> values[i] == Config(configs[i].name, configs[i].specific.versions)
  }

  /** The configs as the request carries them: the version lists are read when it is sent. */
  ghost function Snapshot(configs: seq<ModelConfig>): (values: seq<Config>)
    reads set c | c in configs :: c.specific
    ensures |values| == |configs|
    ensures forall i :: 0 <= i < |configs| ==> values[i] == Config(configs[i].name, configs[i].specific.versions)
  {
    if configs == [] then []
    else [Config(configs[0].name, configs[0].specific.versions)] + Snapshot(configs[1..])
  }

  ghost predicate Located(configs: seq<ModelConfig>, dir: string, join: PathJoin) {
    forall c :: c in configs ==> c.basePath == join(dir, c.name) && c.platform == "tensorflow"
  }

  /** The map finds the version list of each config under its name, and no two configs share one. */
  ghost predicate Aliased(configs: seq<ModelConfig>, distinctModels: map<string, Specific>) {
    && (forall name :: name in distinctModels <==> exists c :: c in configs && c.name == name)
    && (forall c :: c in configs ==> c.name in distinctModels && distinctModels[c.name] == c.specific)
    && (forall c, d :: c in configs && d in configs && c.specific == d.specific ==> c == d)
  }

  method CreateModelConfig(models: seq<Model>, dir: string, join: PathJoin) returns (configs: seq<ModelConfig>)
    ensures forall c :: c in configs ==> fresh(c.specific)
    ensures Located(configs, dir, join)
    ensures Represents(configs, GroupBy(Ids(models)))
  {
    var distinctModels: map<string, Specific> := map[];
    ghost var lists: set<Specific> := {};
    configs := [];
    var i := 0;
    while i < |models|
      invariant 0 <= i <= |models|
      invariant fresh(lists) && Within(configs, lists)
      invariant Located(configs, dir, join) && Aliased(configs, distinctModels)
      invariant Represents(configs, GroupBy(Ids(models)[..i]))
    {
      IdsTake(models, i);
      configs, distinctModels, lists :=
        AddModel(configs, distinctModels, lists, models[i].identifier, Ids(models)[..i], dir, join);
      i := i + 1;
    }
    assert Ids(models)[..|models|] == Ids(models);
  }

  ghost predicate Within(configs: seq<ModelConfig>, lists: set<Specific>) {
    forall c :: c in configs ==> c.specific in lists
  }

  /** One turn of the loop; `lists` are the version lists made so far. */
  method AddModel(configs: seq<ModelConfig>, distinctModels: map<string, Specific>, ghost lists: set<Specific>,
                  id: ModelIdentifier, ghost ids: seq<ModelIdentifier>, dir: string, join: PathJoin)
    returns (configs': seq<ModelConfig>, distinctModels': map<string, Specific>, ghost lists': set<Specific>)
    requires Within(configs, lists) && Located(configs, dir, join) && Aliased(configs, distinctModels)
    requires Represents(configs, GroupBy(ids))
    modifies lists
    ensures fresh(lists' - lists) && Within(configs', lists')
    ensures Located(configs', dir, join) && Aliased(configs', distinctModels')
    ensures Represents(configs', GroupBy(ids + [id]))
  {
    configs', distinctModels', lists' := configs, distinctModels, lists;
    if id.modelName in distinctModels {
      AppendVersion(configs, distinctModels, id, ids);
    } else {
      var config := NewConfig(configs, distinctModels, id, ids, dir, join);
      distinctModels' := distinctModels[id.modelName := config.specific];
      configs' := configs + [config];
      lists' := lists + {config.specific};
    }
  }

  lemma AliasedNames(configs: seq<ModelConfig>, distinctModels: map<string, Specific>, ids: seq<ModelIdentifier>)
    requires Aliased(configs, distinctModels) && Represents(configs, GroupBy(ids))
    ensures forall name :: name in distinctModels <==> name in Names(ids)
  {
    assert forall i :: 0 <= i < |configs| ==> configs[i] in configs && Names(ids)[i] == GroupBy(ids)[i].name;
  }

  lemma AliasedNew(configs: seq<ModelConfig>, distinctModels: map<string, Specific>, config: ModelConfig)
    requires Aliased(configs, distinctModels) && config.name !in distinctModels
    requires forall c :: c in configs ==> c.specific != config.specific
    ensures Aliased(configs + [config], distinctModels[config.name := config.specific])
  {
    var configs' := configs + [config];
    assert config in configs' && forall c :: c in configs ==> c in configs';
  }

  /** The append through the map reaches exactly the config of that name. */
  method AppendVersion(configs: seq<ModelConfig>, distinctModels: map<string, Specific>, id: ModelIdentifier,
                       ghost ids: seq<ModelIdentifier>)
    requires Aliased(configs, distinctModels) && Represents(configs, GroupBy(ids))
    requires id.modelName in distinctModels
    modifies distinctModels[id.modelName]
    ensures Represents(configs, GroupBy(ids + [id]))
  {
    AliasedNames(configs, distinctModels, ids);
    var existingVersions := distinctModels[id.modelName];
    existingVersions.versions := existingVersions.versions + [id.version];
    assert |Names(ids)| > 0;
    GroupByAgain(ids, id, 0);
    forall i | 0 <= i < |configs|
      ensures GroupBy(ids + [id])[i] == Config(configs[i].name, configs[i].specific.versions)
    {
      GroupByAgain(ids, id, i);
      assert configs[i] in configs;
    }
  }

  method NewConfig(configs: seq<ModelConfig>, distinctModels: map<string, Specific>, id: ModelIdentifier,
                   ghost ids: seq<ModelIdentifier>, dir: string, join: PathJoin)
    returns (config: ModelConfig)
    requires Aliased(configs, distinctModels) && Represents(configs, GroupBy(ids))
    requires id.modelName !in distinctModels
    ensures fresh(config.specific)
    ensures config.name == id.modelName && Located([config], dir, join)
    ensures Aliased(configs + [config], distinctModels[id.modelName := config.specific])
    ensures Represents(configs + [config], GroupBy(ids + [id]))
  {
    AliasedNames(configs, distinctModels, ids);
    GroupByNew(ids, id);
    var modelVersions := new Specific(id.version);
    config := ModelConfig(id.modelName, join(dir, id.modelName), "tensorflow", modelVersions);
    AliasedNew(configs, distinctModels, config);
  }
}

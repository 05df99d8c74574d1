/** The cache manager and its connection to TF Serving, as objects that change in place. */
module CacheManager {
  import LruState
  import opened FetchModel
  import opened LruCache
  import opened Models
  import opened ServingConfig
  import opened Wrappers

  datatype Location = Location(basePath: string, platform: string)

  function Locations(configs: seq<ModelConfig>): (locations: seq<Location>)
    ensures |locations| == |configs|
    ensures forall i :: 0 <= i < |configs| ==> locations[i] == Location(configs[i].basePath, configs[i].platform)
  {
    if configs == [] then [] else [Location(configs[0].basePath, configs[0].platform)] + Locations(configs[1..])
  }

  class TFServingController {
    /** What TF Serving is configured with: each accepted request replaces it. */
    ghost var served: seq<Config>
    /** Where each of these configs says that its model is, and for which platform. */
    ghost var locations: seq<Location>

    constructor ()
      ensures served == [] && locations == []
    {
      served := [];
      locations := [];
    }

    /** Every config served points into the model directory. */
    ghost predicate LocatedIn(dir: string, join: PathJoin)
      reads this
    {
      && |locations| == |served|
      && forall i :: 0 <= i < |served| ==> locations[i] == Location(join(dir, served[i].name), "tensorflow")
    }

    method ReloadConfig(models: seq<Model>, dir: string, join: PathJoin, accepted: bool) returns (ok: bool)
      modifies this
      ensures ok == accepted
      ensures served == if accepted then GroupBy(Ids(models)) else old(served)
      ensures if accepted then LocatedIn(dir, join) else locations == old(locations)
    {
      var configs := CreateModelConfig(models, dir, join);
      if accepted {
        served := Snapshot(configs);
        locations := Locations(configs);
        assert forall i :: 0 <= i < |configs| ==> configs[i] in configs;
        assert served == GroupBy(Ids(models));
      }
      ok := accepted;
    }
  }

  class CacheManager {
    const LocalCache: LRUCache
    const MaxConcurrentModels: nat
    const TFServingServerModelBasePath: string
    const ServingController: TFServingController
    const ModelFetchTimeout: real
    const join: PathJoin

    constructor (cache: LRUCache, controller: TFServingController, basePath: string, timeout: real,
                 maxConcurrentModels: nat, join: PathJoin)
      ensures LocalCache == cache && ServingController == controller
      ensures MaxConcurrentModels == maxConcurrentModels && ModelFetchTimeout == timeout
    {
      LocalCache := cache;
      ServingController := controller;
      TFServingServerModelBasePath := basePath;
      ModelFetchTimeout := timeout;
      MaxConcurrentModels := maxConcurrentModels;
      this.join := join;
    }

    ghost function State(): ManagerState
      reads LocalCache, ServingController
    {
      ManagerState(LocalCache.View(), ServingController.served)
    }

    method FetchModel(identifier: ModelIdentifier, a: Answers) returns (ok: bool)
      requires LocalCache.Valid() && ValidAnswers(identifier, a)
      modifies LocalCache, ServingController
      ensures LocalCache.Valid()
      ensures (State(), ok) == Fetch(old(State()), identifier, MaxConcurrentModels, ModelFetchTimeout, a)
    {
      var model := TryGetModelFromCache(identifier, a.fileExists);
      if model.None? {
        ok := LoadMissing(identifier, a);
      } else if NeedsReload(a.status) {
        ok := ReloadServingConfig(a);
      } else {
        ok := true;
      }
    }

    method TryGetModelFromCache(identifier: ModelIdentifier, fileExists: bool) returns (found: Option<Model>)
      requires LocalCache.Valid()
      modifies LocalCache
      ensures LocalCache.Valid()
      ensures LocalCache.View() == LruState.Get(old(LocalCache.View()), identifier)
      ensures found == if fileExists then LruState.Lookup(old(LocalCache.View()), identifier) else None
    {
      var model := LocalCache.Get(identifier);
      found := if model.Some? && fileExists then model else None;
    }

    /** The miss branch: reserve, load, insert, reload. */
    method LoadMissing(identifier: ModelIdentifier, a: Answers) returns (ok: bool)
      requires LocalCache.Valid() && ValidAnswers(identifier, a)
      modifies LocalCache, ServingController
      ensures LocalCache.Valid()
      ensures (State(), ok) == Miss(old(State()), identifier, MaxConcurrentModels, ModelFetchTimeout, a)
    {
      if a.size.None? {
        return false;
      }
      var short := LocalCache.EnsureFreeBytes(a.size.value);
      if a.load.None? {
        return false;
      }
      LocalCache.Put(identifier, a.load.value);
      ok := ReloadServingConfig(a);
    }

    method ReloadServingConfig(a: Answers) returns (ok: bool)
      requires LocalCache.Valid()
      modifies ServingController
      ensures State() == Reload(old(State()), MaxConcurrentModels, a.accepted)
      ensures ok == (a.accepted && PollSucceeds(ModelFetchTimeout, a.polls))
      ensures a.accepted ==> ServingController.LocatedIn(TFServingServerModelBasePath, join)
    {
      var availableModels := LocalCache.ListModels();
      var numActiveModels :=
        if |availableModels| <= MaxConcurrentModels then |availableModels| else MaxConcurrentModels;
      IdsPrefix(availableModels, numActiveModels);
      ok := ServingController.ReloadConfig(
        availableModels[..numActiveModels], TFServingServerModelBasePath, join, a.accepted);
      if ok {
        var polled;
        ok, polled := AwaitAvailable(a.polls);
      }
    }

    /**
     Polls until the model is available or the timeout is reached. `polled` counts
     the polls: one for a timeout of zero or less, and else twice the timeout, rounded
     up, unless one of them finds the model, which is then the last.
     */
    method AwaitAvailable(polls: nat -> StatusReply) returns (ok: bool, polled: nat)
      ensures ok == PollSucceeds(ModelFetchTimeout, polls)
      ensures ModelFetchTimeout <= 0.0 ==> !ok && polled == 1
      ensures ModelFetchTimeout > 0.0 ==> 1 <= polled && (polled - 1) as real < 2.0 * ModelFetchTimeout
      ensures !ok && ModelFetchTimeout > 0.0 ==> polled as real >= 2.0 * ModelFetchTimeout
      ensures forall k :: 0 <= k < polled - 1 ==> polls(k) != Reported(Available)
      ensures ModelFetchTimeout > 0.0 ==> (ok <==> polls(polled - 1) == Reported(Available))
    {
      ghost var most := if ModelFetchTimeout <= 0.0 then 1 else (2.0 * ModelFetchTimeout).Floor + 1;
      var totalTime := 0.0;
      polled := 0;
      while totalTime == 0.0 || totalTime < ModelFetchTimeout
        invariant totalTime == polled as real * 0.5
        invariant polled > 1 ==> (polled - 1) as real * 0.5 < ModelFetchTimeout
        invariant forall k :: 0 <= k < polled ==> polls(k) != Reported(Available)
        decreases most - polled
      {
        var status := polls(polled);
        polled := polled + 1;
        if status == Reported(Available) {
          break;
        }
        totalTime := totalTime + 0.5;
      }
      ok := totalTime < ModelFetchTimeout;
    }
  }
}

/** Two caches of different capacity that serve the same requests. */
module LruInclusion {
  import Int64
  import opened Eviction
  import opened LruState
  import opened Models
  import opened Sequences

  /** What the provider loads: one model per identifier, of a fixed size. */
  type Provider = ModelIdentifier -> Model

  ghost predicate ValidProvider(load: Provider) {
    forall id :: load(id).identifier == id && 0 <= load(id).sizeOnDisk <= Int64.MAX
  }

  /** One request: a `Get`, then a `Put` of the loaded model on a miss. */
  function Access(c: CacheState, id: ModelIdentifier, load: Provider): CacheState {
    if id in c.index then Get(c, id) else Put(c, id, load(id))
  }

  function Run(c: CacheState, trace: seq<ModelIdentifier>, load: Provider): CacheState
    decreases |trace|
  {
    if trace == [] then c else Run(Access(c, trace[0], load), trace[1..], load)
  }

  function Hits(c: CacheState, trace: seq<ModelIdentifier>, load: Provider): nat
    decreases |trace|
  {
    if trace == [] then 0
    else (if trace[0] in c.index then 1 else 0) + Hits(Access(c, trace[0], load), trace[1..], load)
  }

  /** One more request at the end is one more access, and one more hit if its model is then resident. */
  lemma {:induction false} RunSnoc(c: CacheState, trace: seq<ModelIdentifier>, id: ModelIdentifier, load: Provider)
    ensures Run(c, trace + [id], load) == Access(Run(c, trace, load), id, load)
    ensures Hits(c, trace + [id], load) == Hits(c, trace, load) + if id in Run(c, trace, load).index then 1 else 0
    decreases |trace|
  {
    if trace == [] {
      assert (trace + [id])[1..] == [];
    } else {
      assert (trace + [id])[1..] == trace[1..] + [id];
      RunSnoc(Access(c, trace[0], load), trace[1..], id, load);
    }
  }

  /** The larger cache holds what the smaller one holds, in the same order, and possibly older models. */
  ghost predicate Included(small: CacheState, large: CacheState) {
    && WellFormed(small) && WellFormed(large)
    && small.capacity <= large.capacity
    && small.list <= large.list
  }

  lemma IncludedHit(small: CacheState, large: CacheState, id: ModelIdentifier)
    requires Included(small, large) && id in small.index
    ensures id in large.index && large.index[id] == small.index[id]
  {
    var i := ResidentAt(small, id);
    assert large.list[i] == small.list[i];
  }

  lemma {:induction false} DropPrefix(s: seq<Model>, t: seq<Model>, id: ModelIdentifier)
    requires s <= t
    ensures Drop(s, id) <= Drop(t, id)
  {
    if s != [] {
      DropPrefix(s[1..], t[1..], id);
    }
  }

  lemma AccessKeeps(c: CacheState, id: ModelIdentifier, load: Provider)
    requires WellFormed(c) && ValidProvider(load)
    ensures WellFormed(Access(c, id, load)) && Access(c, id, load).capacity == c.capacity
  {
    GetKeeps(c, id);
    PutKeeps(c, id, load(id));
    EnsureFreeKeeps(c, load(id).sizeOnDisk);
  }

  /** One request keeps the inclusion. */
  lemma AccessIncluded(small: CacheState, large: CacheState, id: ModelIdentifier, load: Provider)
    requires Included(small, large) && ValidProvider(load) && FromProvider(large, load)
    ensures Included(Access(small, id, load), Access(large, id, load))
  {
    AccessKeeps(small, id, load);
    AccessKeeps(large, id, load);
    if id in large.index {
      TouchIncluded(small, large, id, load);
    } else {
      if id in small.index { IncludedHit(small, large, id); }
      EvictionMonotone(small, large, load(id).sizeOnDisk);
    }
  }

  /** The larger cache hits: the smaller one either hits too or inserts in front of what it keeps. */
  lemma TouchIncluded(small: CacheState, large: CacheState, id: ModelIdentifier, load: Provider)
    requires Included(small, large) && ValidProvider(load) && FromProvider(large, load)
    requires id in large.index
    ensures Access(small, id, load).list <= Access(large, id, load).list
  {
    var j := ResidentAt(large, id);
    DropPrefix(small.list, large.list, id);
    if id in small.index {
      IncludedHit(small, large, id);
      ConsPrefix(small.index[id], Drop(small.list, id), Drop(large.list, id));
    } else {
      var kept := EnsureFree(small, load(id).sizeOnDisk).list;
      EnsureFreeShrinks(small, load(id).sizeOnDisk);
      ResidentIds(small, id);
      DropAbsent(small.list, id);
      PrefixTransitive(kept, small.list, Drop(large.list, id));
      ConsPrefix(load(id), kept, Drop(large.list, id));
    }
  }

  /** Residents are what the provider loads. */
  ghost predicate FromProvider(c: CacheState, load: Provider) {
    forall m :: m in c.list ==> m == load(m.identifier)
  }

  lemma AccessFromProvider(c: CacheState, id: ModelIdentifier, load: Provider)
    requires WellFormed(c) && ValidProvider(load) && FromProvider(c, load)
    ensures FromProvider(Access(c, id, load), load)
  {
    var d := Access(c, id, load);
    if id in c.index {
      var j := ResidentAt(c, id);
    } else {
      EnsureFreeKeeps(c, load(id).sizeOnDisk);
    }
  }

  /** LRU has no Belady anomaly: on every trace the smaller cache stays a prefix and never hits more often. */
  lemma {:induction false} Inclusion(small: CacheState, large: CacheState, trace: seq<ModelIdentifier>, load: Provider)
    requires Included(small, large) && ValidProvider(load) && FromProvider(large, load)
    ensures Included(Run(small, trace, load), Run(large, trace, load))
    ensures Hits(small, trace, load) <= Hits(large, trace, load)
    decreases |trace|
  {
    if trace != [] {
      AccessIncluded(small, large, trace[0], load);
      AccessFromProvider(large, trace[0], load);
      if trace[0] in small.index { IncludedHit(small, large, trace[0]); }
      Inclusion(Access(small, trace[0], load), Access(large, trace[0], load), trace[1..], load);
    }
  }

  /** From empty caches: every request that hits the smaller cache hits the larger one. */
  lemma InclusionFromEmpty(small: int, large: int, trace: seq<ModelIdentifier>, id: ModelIdentifier, load: Provider)
    requires 0 <= small <= large <= Int64.MAX && ValidProvider(load)
    ensures Run(Empty(small), trace, load).list <= Run(Empty(large), trace, load).list
    ensures id in Run(Empty(small), trace, load).index ==> id in Run(Empty(large), trace, load).index
    ensures Hits(Empty(small), trace, load) <= Hits(Empty(large), trace, load)
  {
    Inclusion(Empty(small), Empty(large), trace, load);
    if id in Run(Empty(small), trace, load).index {
      IncludedHit(Run(Empty(small), trace, load), Run(Empty(large), trace, load), id);
    }
  }
}

/**
 The value of an `LRUCache` and what each operation makes of it: `list` is the
 recency list, most recently used first, `index` is the lookup map with the model
 each entry points to, and `currentSize` is the running byte count.
 */
module LruState {
  import Int64
  import opened Models
  import opened Sequences
  import opened Wrappers

  datatype CacheState = CacheState(
    capacity: int,
    list: seq<Model>,
    index: map<ModelIdentifier, Model>,
    currentSize: int)

  function Empty(capacity: int): CacheState {
    CacheState(capacity, [], map[], 0)
  }

  function Lookup(c: CacheState, id: ModelIdentifier): Option<Model> {
    if id in c.index then Some(c.index[id]) else None
  }

  /** What `Get` leaves behind; what it returns is `Lookup`. */
  function Get(c: CacheState, id: ModelIdentifier): CacheState {
    if id in c.index then MoveToFront(c, c.index[id]) else c
  }

  function MoveToFront(c: CacheState, m: Model): CacheState {
    c.(list := [m] + Drop(c.list, m.identifier))
  }

  /** One turn of the eviction loop. */
  function Pop(c: CacheState): CacheState
    requires c.list != []
  {
    var last := c.list[|c.list| - 1];
    c.(list := c.list[..|c.list| - 1],
       index := c.index - {last.identifier},
       currentSize := c.currentSize - last.sizeOnDisk)
  }

  function EnsureFree(c: CacheState, bytes: int): CacheState
    decreases |c.list|
  {
    if c.list != [] && c.capacity - c.currentSize < bytes then EnsureFree(Pop(c), bytes) else c
  }

  function Put(c: CacheState, item: ModelIdentifier, model: Model): CacheState {
    if item in c.index then
      MoveToFront(c, c.index[item])
    else
      PushFront(EnsureFree(c, model.sizeOnDisk), item, model)
  }

  function PushFront(c: CacheState, item: ModelIdentifier, model: Model): CacheState {
    c.(list := [model] + c.list,
       index := c.index[item := model],
       currentSize := c.currentSize + model.sizeOnDisk)
  }

  /*
   * What every operation keeps
   */

  /** The list and the map are in bijection, by identifier. */
  ghost predicate Bijection(c: CacheState) {
    && Distinct(Ids(c.list))
    && (forall id :: id in c.index ==> id in Ids(c.list))
    && (forall m :: m in c.list ==> m.identifier in c.index && c.index[m.identifier] == m)
  }

  /** At most one model is resident when the budget is exceeded. */
  ghost predicate Bounded(c: CacheState) {
    c.currentSize <= c.capacity || |c.list| == 1
  }

  ghost predicate SizesInRange(s: seq<Model>) {
    forall m :: m in s ==> 0 <= m.sizeOnDisk <= Int64.MAX
  }

  ghost predicate WellFormed(c: CacheState) {
    && 0 <= c.capacity <= Int64.MAX
    && SizesInRange(c.list)
    && Bijection(c)
    && c.currentSize == Total(c.list)
    && Bounded(c)
  }

  lemma ResidentAt(c: CacheState, id: ModelIdentifier) returns (i: nat)
    requires Bijection(c) && id in c.index
    ensures i < |c.list| && c.list[i] == c.index[id] && Ids(c.list)[i] == id
  {
    i :| 0 <= i < |c.list| && Ids(c.list)[i] == id;
  }

  lemma ResidentIds(c: CacheState, id: ModelIdentifier)
    requires Bijection(c)
    ensures id in c.index <==> id in Ids(c.list)
  {
    if id in Ids(c.list) {
      var i :| 0 <= i < |c.list| && Ids(c.list)[i] == id;
    }
  }

  lemma MoveToFrontBijection(c: CacheState, m: Model)
    requires Bijection(c) && m in c.list
    ensures Bijection(MoveToFront(c, m))
    ensures Ids(MoveToFront(c, m).list) == [m.identifier] + Without(Ids(c.list), m.identifier)
  {
    var d, id, rest := MoveToFront(c, m), m.identifier, Drop(c.list, m.identifier);
    DropIds(c.list, id);
    assert Ids(d.list) == [id] + Ids(rest) && Ids(d.list)[1..] == Ids(rest);
    WithoutDistinct(Ids(c.list), id);
    assert forall x :: x in d.index ==> x in Ids(d.list);
  }

  lemma MoveToFrontKeeps(c: CacheState, m: Model)
    requires WellFormed(c) && m in c.list
    ensures WellFormed(MoveToFront(c, m))
    ensures Ids(MoveToFront(c, m).list) == [m.identifier] + Without(Ids(c.list), m.identifier)
  {
    var d, rest := MoveToFront(c, m), Drop(c.list, m.identifier);
    MoveToFrontBijection(c, m);
    DropTotal(c.list, m);
    assert d.list[1..] == rest;
    assert SizesInRange(d.list);
  }

  lemma GetKeeps(c: CacheState, id: ModelIdentifier)
    requires WellFormed(c)
    ensures WellFormed(Get(c, id))
    ensures Get(c, id).index == c.index
  {
    if id in c.index {
      var i := ResidentAt(c, id);
      MoveToFrontKeeps(c, c.index[id]);
    }
  }

  /** The last of a list without repeated identifiers shares its identifier with no other. */
  lemma LastIsAlone(rest: seq<Model>, last: Model)
    requires Distinct(Ids(rest + [last]))
    ensures Distinct(Ids(rest)) && last.identifier !in Ids(rest)
    ensures forall id :: id in Ids(rest + [last]) ==> id in Ids(rest) || id == last.identifier
  {
    IdsConcat(rest, [last]);
    DistinctConcat(Ids(rest), Ids([last]));
    assert last in [last];
  }

  lemma PopBijection(c: CacheState)
    requires Bijection(c) && c.list != []
    ensures Bijection(Pop(c))
  {
    var rest, last := c.list[..|c.list| - 1], c.list[|c.list| - 1];
    assert c.list == rest + [last];
    LastIsAlone(rest, last);
    var d := Pop(c);
    assert d.list == rest && d.index == c.index - {last.identifier};
    forall id | id in d.index
      ensures id in Ids(rest)
    {
      assert id in c.index;
    }
    forall m | m in rest
      ensures m.identifier in d.index && d.index[m.identifier] == m
    {
      assert m in c.list && m.identifier in Ids(rest);
    }
  }

  lemma PopTotal(c: CacheState)
    requires c.list != [] && c.currentSize == Total(c.list)
    ensures Pop(c).currentSize == Total(Pop(c).list)
  {
    var rest, last := c.list[..|c.list| - 1], c.list[|c.list| - 1];
    assert c.list == rest + [last];
    TotalConcat(rest, [last]);
  }

  lemma PopKeeps(c: CacheState)
    requires WellFormed(c) && c.list != []
    ensures WellFormed(Pop(c))
  {
    var d := Pop(c);
    PopBijection(c);
    PopTotal(c);
    TotalNonNegative(d.list);
    assert d.currentSize <= c.currentSize by {
      assert c.list[|c.list| - 1] in c.list;
    }
  }

  /** The eviction loop removes entries from the back, whole, and nothing else. */
  lemma {:induction false} EnsureFreeShrinks(c: CacheState, bytes: int)
    ensures var d := EnsureFree(c, bytes);
      d.list <= c.list && d.index.Keys <= c.index.Keys && d.capacity == c.capacity
    decreases |c.list|
  {
    if c.list != [] && c.capacity - c.currentSize < bytes {
      EnsureFreeShrinks(Pop(c), bytes);
      assert Pop(c).list <= c.list;
    }
  }

  lemma {:induction false} EnsureFreeWellFormed(c: CacheState, bytes: int)
    requires WellFormed(c)
    ensures WellFormed(EnsureFree(c, bytes))
    decreases |c.list|
  {
    if c.list != [] && c.capacity - c.currentSize < bytes {
      PopKeeps(c);
      EnsureFreeWellFormed(Pop(c), bytes);
    }
  }

  lemma EnsureFreeKeeps(c: CacheState, bytes: int)
    requires WellFormed(c)
    ensures WellFormed(EnsureFree(c, bytes))
    ensures EnsureFree(c, bytes).list <= c.list
    ensures EnsureFree(c, bytes).index.Keys <= c.index.Keys
    ensures EnsureFree(c, bytes).capacity == c.capacity
  {
    EnsureFreeShrinks(c, bytes);
    EnsureFreeWellFormed(c, bytes);
  }

  /**
   After the loop there is room or nothing is left, so the error branch that
   follows it in the source can never be taken.
   */
  lemma {:induction false} EnsureFreeFrees(c: CacheState, bytes: int)
    ensures var d := EnsureFree(c, bytes); d.list == [] || d.capacity - d.currentSize >= bytes
    decreases |c.list|
  {
    if c.list != [] && c.capacity - c.currentSize < bytes {
      EnsureFreeFrees(Pop(c), bytes);
    }
  }

  lemma FiledBijection(c: CacheState, model: Model)
    requires Bijection(c) && model.identifier !in c.index
    ensures Bijection(PushFront(c, model.identifier, model))
  {
    var p := PushFront(c, model.identifier, model);
    IdsConcat([model], c.list);
    assert Ids([model]) == [model.identifier];
    ResidentIds(c, model.identifier);
    DistinctConcat([model.identifier], Ids(c.list));
    assert forall m :: m in p.list ==> m == model || m in c.list;
  }

  lemma MisfiledNoBijection(c: CacheState, item: ModelIdentifier, model: Model)
    requires item != model.identifier
    ensures !Bijection(PushFront(c, item, model))
  {
    var p := PushFront(c, item, model);
    if Bijection(p) {
      var i := ResidentAt(p, item);
      assert false;
    }
  }

  /** Filing a model under its own identifier keeps the bijection; under any other, it breaks it. */
  lemma PushFrontBijection(c: CacheState, item: ModelIdentifier, model: Model)
    requires Bijection(c) && item !in c.index
    ensures Bijection(PushFront(c, item, model)) <==> item == model.identifier
  {
    if item == model.identifier {
      FiledBijection(c, model);
    } else {
      MisfiledNoBijection(c, item, model);
    }
  }

  lemma PushFrontKeeps(c: CacheState, item: ModelIdentifier, model: Model)
    requires WellFormed(c) && item !in c.index
    requires 0 <= model.sizeOnDisk <= Int64.MAX
    requires c.list == [] || c.capacity - c.currentSize >= model.sizeOnDisk
    ensures WellFormed(PushFront(c, item, model)) <==> item == model.identifier
    ensures 0 <= PushFront(c, item, model).currentSize <= Int64.MAX
  {
    PushFrontBijection(c, item, model);
    TotalNonNegative(c.list);
    assert PushFront(c, item, model).list[1..] == c.list;
  }

  /**
   `Put` keeps the invariant exactly when the key it files a new model under is
   that model's own identifier. The running byte count never leaves `int64` on
   the way, since it is at most the capacity or the size of one model.
   */
  lemma PutKeeps(c: CacheState, item: ModelIdentifier, model: Model)
    requires WellFormed(c)
    requires 0 <= model.sizeOnDisk <= Int64.MAX
    ensures WellFormed(Put(c, item, model)) <==> item in c.index || item == model.identifier
    ensures 0 <= Put(c, item, model).currentSize <= Int64.MAX
    ensures Put(c, item, model).capacity == c.capacity
  {
    if item in c.index {
      var i := ResidentAt(c, item);
      MoveToFrontKeeps(c, c.index[item]);
      CurrentSizeInRange(c);
    } else {
      EnsureFreeKeeps(c, model.sizeOnDisk);
      EnsureFreeFrees(c, model.sizeOnDisk);
      PushFrontKeeps(EnsureFree(c, model.sizeOnDisk), item, model);
    }
  }

  lemma PutFront(c: CacheState, item: ModelIdentifier, model: Model)
    requires Bijection(Put(c, item, model)) && item == model.identifier
    ensures Put(c, item, model).list[0].identifier == item
  {
    var i := ResidentAt(Put(c, item, model), item);
  }

  /** A lookup answers with exactly the listed model of that identifier. */
  lemma LookupExactly(c: CacheState, id: ModelIdentifier, m: Model)
    requires Bijection(c)
    ensures Lookup(c, id) == Some(m) <==> m in c.list && m.identifier == id
    ensures Lookup(c, id) == None <==> id !in Ids(c.list)
  {
    ResidentIds(c, id);
    if id in c.index {
      var i := ResidentAt(c, id);
    }
  }

  /** Inserting what is resident is a lookup, whatever model is given. A new model is then found as it was given. */
  lemma PutLookup(c: CacheState, item: ModelIdentifier, model: Model)
    ensures item in c.index ==> Put(c, item, model) == Get(c, item)
    ensures item !in c.index ==> Lookup(Put(c, item, model), item) == Some(model)
    ensures Lookup(Get(c, item), item) == Lookup(c, item)
  {
    EnsureFreeShrinks(c, model.sizeOnDisk);
  }

  /** Every other identifier is answered as before, unless its model was evicted. */
  lemma PutLookupOther(c: CacheState, item: ModelIdentifier, model: Model, x: ModelIdentifier)
    requires WellFormed(c) && x != item
    ensures Lookup(Put(c, item, model), x) == Lookup(c, x) || x !in Put(c, item, model).index
    ensures x !in Put(c, item, model).index && x in c.index ==>
      item !in c.index && x !in EnsureFree(c, model.sizeOnDisk).index
  {
    EnsureFreeLookup(c, model.sizeOnDisk, x);
  }

  lemma EnsureFreeLookup(c: CacheState, bytes: int, x: ModelIdentifier)
    requires WellFormed(c)
    ensures var d := EnsureFree(c, bytes);
      Lookup(d, x) == if x in d.index then Lookup(c, x) else None
  {
    var d := EnsureFree(c, bytes);
    EnsureFreeKeeps(c, bytes);
    if x in d.index {
      var i := ResidentAt(d, x);
      assert d.index[x] == c.list[i] && c.list[i] in c.list;
    }
  }

  lemma CurrentSizeInRange(c: CacheState)
    requires WellFormed(c)
    ensures 0 <= c.currentSize <= Int64.MAX
    ensures Int64.InRange(c.capacity - c.currentSize)
  {
    TotalNonNegative(c.list);
    if |c.list| == 1 {
      assert c.list[1..] == [];
    }
  }

  /** Filing a model under a foreign key: once it is evicted, its key still answers as resident. */
  lemma MisfiledKeyOutlivesItsModel(c: CacheState, item: ModelIdentifier, model: Model, bytes: int)
    requires WellFormed(c) && 0 <= model.sizeOnDisk <= Int64.MAX
    requires item !in c.index && item != model.identifier
    requires c.capacity < bytes
    ensures EnsureFree(Put(c, item, model), bytes).list == []
    ensures Lookup(EnsureFree(Put(c, item, model), bytes), item) == Some(model)
  {
    var p := Put(c, item, model);
    EnsureFreeKeeps(c, model.sizeOnDisk);
    assert p.list[1..] == EnsureFree(c, model.sizeOnDisk).list;
    assert p.currentSize == Total(p.list);
    var d := EnsureFree(c, model.sizeOnDisk);
    forall i | 0 <= i < |p.list|
      ensures p.list[i].identifier != item
    {
      if i > 0 {
        assert p.list[i] == d.list[i - 1];
      }
    }
    EvictAllKeepsForeignKey(p, item, bytes);
  }

  lemma {:induction false} EvictAllKeepsForeignKey(c: CacheState, item: ModelIdentifier, bytes: int)
    requires NonNegative(c.list) && c.currentSize == Total(c.list) && c.capacity < bytes
    requires item in c.index && forall i :: 0 <= i < |c.list| ==> c.list[i].identifier != item
    ensures EnsureFree(c, bytes).list == []
    ensures Lookup(EnsureFree(c, bytes), item) == Lookup(c, item)
    decreases |c.list|
  {
    TotalNonNegative(c.list);
    if c.list != [] {
      PopTotal(c);
      EvictAllKeepsForeignKey(Pop(c), item, bytes);
    }
  }
}

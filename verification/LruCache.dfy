/**
 The cache as the source keeps it: list elements are objects, and the lookup map
 points to the very elements of the list. Every method is proved to do to the
 value of the cache what `LruState` says.
 */
module LruCache {
  import Int64
  import LruState
  import opened Models
  import opened Sequences
  import opened Wrappers

  class Element {
    const value: Model

    constructor (value: Model)
      ensures this.value == value
    {
      this.value := value;
    }
  }

  function Values(es: seq<Element>): (s: seq<Model>)
    ensures |s| == |es|
    ensures forall i :: 0 <= i < |es| ==> s[i] == es[i].value
  {
    if es == [] then [] else [es[0].value] + Values(es[1..])
  }

  /** The list with the element `e` unlinked. */
  function Unlink(es: seq<Element>, e: Element): (r: seq<Element>)
    ensures forall x :: x in es && x != e ==> x in r
  {
    if es == [] then []
    else if es[0] == e then es[1..]
    else [es[0]] + Unlink(es[1..], e)
  }

  lemma {:induction false} UnlinkValues(es: seq<Element>, e: Element)
    requires e in es && Distinct(Ids(Values(es)))
    ensures Values(Unlink(es, e)) == Drop(Values(es), e.value.identifier)
  {
    var tail := es[1..];
    if es[0] == e {
      DropAbsent(Values(tail), e.value.identifier);
    } else {
      UnlinkValues(tail, e);
      ValueIn(tail, e);
      assert e.value.identifier in Ids(Values(tail));
      assert Values([es[0]] + Unlink(tail, e)) == [es[0].value] + Values(Unlink(tail, e));
    }
  }

  lemma ValueIn(es: seq<Element>, e: Element)
    requires e in es
    ensures e.value in Values(es)
  {
    var i :| 0 <= i < |es| && es[i] == e;
    assert Values(es)[i] == e.value;
  }

  function MapValues(m: map<ModelIdentifier, Element>): map<ModelIdentifier, Model> {
    map id | id in m :: m[id].value
  }

  /** The map points into the list, and the models it points to are those the list holds. */
  ghost predicate Linked(es: seq<Element>, m: map<ModelIdentifier, Element>) {
    forall id :: id in m ==> m[id] in es && m[id].value.identifier == id
  }

  lemma LinkedInit(es: seq<Element>, m: map<ModelIdentifier, Element>)
    requires Linked(es, m) && es != []
    ensures Linked(es[..|es| - 1], m - {es[|es| - 1].value.identifier})
  {
  }

  lemma LinkedCons(es: seq<Element>, m: map<ModelIdentifier, Element>, e: Element)
    requires Linked(es, m)
    ensures Linked([e] + es, m[e.value.identifier := e])
  {
  }

  /** The value of a cache with the given fields. */
  ghost function ViewOf(capacity: int, es: seq<Element>, m: map<ModelIdentifier, Element>, size: int)
    : LruState.CacheState
  {
    LruState.CacheState(capacity, Values(es), MapValues(m), size)
  }

  lemma InitView(capacity: int, es: seq<Element>, m: map<ModelIdentifier, Element>, size: int)
    requires es != []
    ensures var last := es[|es| - 1].value;
      ViewOf(capacity, es[..|es| - 1], m - {last.identifier}, size - last.sizeOnDisk)
      == LruState.Pop(ViewOf(capacity, es, m, size))
  {
    var x := es[|es| - 1].value.identifier;
    assert Values(es[..|es| - 1]) == Values(es)[..|es| - 1];
    assert MapValues(m - {x}) == MapValues(m) - {x};
  }

  lemma ConsView(capacity: int, es: seq<Element>, m: map<ModelIdentifier, Element>, size: int,
                 item: ModelIdentifier, e: Element)
    ensures ViewOf(capacity, [e] + es, m[item := e], size + e.value.sizeOnDisk)
         == LruState.PushFront(ViewOf(capacity, es, m, size), item, e.value)
  {
    assert Values([e] + es) == [e.value] + Values(es);
    assert MapValues(m[item := e]) == MapValues(m)[item := e.value];
  }

  class LRUCache {
    const baseDir: string
    const Capacity: int
    var lruList: seq<Element>
    var modelMap: map<ModelIdentifier, Element>
    var currentSize: int

    ghost function View(): LruState.CacheState
      reads this
    {
      ViewOf(Capacity, lruList, modelMap, currentSize)
    }

    ghost predicate Valid()
      reads this
    {
      LruState.WellFormed(View()) && Linked(lruList, modelMap)
    }

    constructor (dir: string, capacityInBytes: int)
      requires 0 <= capacityInBytes <= Int64.MAX
      ensures Valid()
      ensures baseDir == dir && View() == LruState.Empty(capacityInBytes)
    {
      baseDir := dir;
      Capacity := capacityInBytes;
      lruList := [];
      modelMap := map[];
      currentSize := 0;
    }

    method MoveToFront(e: Element)
      requires Valid() && e in lruList
      modifies this`lruList
      ensures Valid()
      ensures View() == LruState.MoveToFront(old(View()), e.value)
    {
      ValueIn(lruList, e);
      LruState.MoveToFrontKeeps(View(), e.value);
      UnlinkValues(lruList, e);
      lruList := [e] + Unlink(lruList, e);
    }

    method Get(item: ModelIdentifier) returns (model: Option<Model>)
      requires Valid()
      modifies this`lruList
      ensures Valid()
      ensures model == LruState.Lookup(old(View()), item)
      ensures View() == LruState.Get(old(View()), item)
    {
      if item in modelMap {
        var val := modelMap[item];
        MoveToFront(val);
        model := Some(val.value);
      } else {
        model := None;
      }
    }

    /** Keeps the cache valid exactly when a new model is filed under its own identifier. */
    method Put(item: ModelIdentifier, model: Model)
      requires Valid()
      requires 0 <= model.sizeOnDisk <= Int64.MAX
      modifies this
      ensures View() == LruState.Put(old(View()), item, model)
      ensures Valid() <==> item in old(modelMap) || item == model.identifier
    {
      LruState.PutKeeps(View(), item, model);
      if item !in modelMap {
        var short := EnsureFreeBytes(model.sizeOnDisk);
        var newElement := new Element(model);
        PushFront(item, newElement);
      } else {
        MoveToFront(modelMap[item]);
      }
    }

    method PushFront(item: ModelIdentifier, e: Element)
      requires Linked(lruList, modelMap)
      requires Int64.InRange(currentSize + e.value.sizeOnDisk)
      modifies this
      ensures View() == LruState.PushFront(old(View()), item, e.value)
      ensures item == e.value.identifier ==> Linked(lruList, modelMap)
    {
      ConsView(Capacity, lruList, modelMap, currentSize, item, e);
      LinkedCons(lruList, modelMap, e);
      lruList := [e] + lruList;
      modelMap := modelMap[item := e];
      currentSize := Int64.Wrap(currentSize + e.value.sizeOnDisk);
    }

    /**
     Evicts from the back. The arithmetic is the machine's; `Valid` keeps it from
     wrapping. `short` tells whether the source reports that it could not make room.
     */
    method EnsureFreeBytes(bytes: int) returns (short: bool)
      requires Valid()
      modifies this
      ensures Valid()
      ensures View() == LruState.EnsureFree(old(View()), bytes)
      ensures !short
    {
      LruState.CurrentSizeInRange(View());
      while |lruList| > 0 && Int64.Wrap(Capacity - currentSize) < bytes
        invariant Valid() && Int64.InRange(Capacity - currentSize)
        invariant LruState.EnsureFree(View(), bytes) == LruState.EnsureFree(old(View()), bytes)
        decreases |lruList|
      {
        LruState.PopKeeps(View());
        LruState.CurrentSizeInRange(LruState.Pop(View()));
        RemoveBack();
        LruState.CurrentSizeInRange(View());
      }
      short := |lruList| > 0 && Int64.Wrap(Capacity - currentSize) < bytes;
    }

    method RemoveBack()
      requires Linked(lruList, modelMap) && lruList != []
      requires Int64.InRange(LruState.Pop(View()).currentSize)
      modifies this
      ensures Linked(lruList, modelMap)
      ensures View() == LruState.Pop(old(View()))
      ensures |lruList| == |old(lruList)| - 1
    {
      LinkedInit(lruList, modelMap);
      InitView(Capacity, lruList, modelMap, currentSize);
      var lruModelElement := lruList[|lruList| - 1];
      var lruModel := lruModelElement.value;
      currentSize := Int64.Wrap(currentSize - lruModel.sizeOnDisk);
      lruList := lruList[..|lruList| - 1];
      modelMap := modelMap - {lruModel.identifier};
    }

    /** The residents, most recently used first. */
    method ListModels() returns (res: seq<Model>)
      ensures res == View().list
    {
      res := [];
      var i := 0;
      while i < |lruList|
        invariant 0 <= i <= |lruList|
        invariant res == Values(lruList)[..i]
      {
        res := res + [lruList[i].value];
        i := i + 1;
      }
    }
  }
}

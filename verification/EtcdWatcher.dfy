/** Cluster membership from etcd: batches of events folded into a map, republished on change. */
module EtcdWatcher {
  import opened NodeCodec
  import opened Sequences
  import opened Wrappers

  /** A created or modified key, or a deleted one. */
  datatype Event = Put(key: string, value: string) | Delete(key: string)

  /** What the watch channel delivers. */
  datatype Batch = WatchError | Updates(events: seq<Event>)

  type NodeMap = map<string, string>

  function ApplyEvent(m: NodeMap, e: Event): NodeMap {
    match e
    case Put(key, value) => m[key := value]
    case Delete(key) => m - {key}
  }

  /** The plain fold of events, without any change detection. */
  function Fold(m: NodeMap, events: seq<Event>): NodeMap {
    if events == [] then m
    else ApplyEvent(Fold(m, events[..|events| - 1]), events[|events| - 1])
  }

  /** What the watcher counts as a change: any deletion, and any value not already stored. */
  predicate Touches(m: NodeMap, e: Event) {
    e.Put? ==> e.key !in m || m[e.key] != e.value
  }

  predicate Changes(m: NodeMap, events: seq<Event>) {
    events != [] &&
    (Changes(m, events[..|events| - 1]) || Touches(Fold(m, events[..|events| - 1]), events[|events| - 1]))
  }

  function EventsOf(b: Batch): seq<Event> {
    if b.Updates? then b.events else []
  }

  function AllEvents(batches: seq<Batch>): seq<Event> {
    if batches == [] then [] else EventsOf(batches[0]) + AllEvents(batches[1..])
  }

  /** The last thing that happened to a key. */
  function Last(events: seq<Event>, key: string): Option<Event> {
    if events == [] then None
    else if events[|events| - 1].key == key then Some(events[|events| - 1])
    else Last(events[..|events| - 1], key)
  }

  /** Last writer wins: a key with events has what its last event left there, any other is as before. */
  lemma {:induction false} LastWriterFrom(m: NodeMap, events: seq<Event>, key: string)
    ensures match Last(events, key)
      case Some(Put(_, value)) => key in Fold(m, events) && Fold(m, events)[key] == value
      case Some(Delete(_)) => key !in Fold(m, events)
      case None => (key in Fold(m, events) <==> key in m) && (key in m ==> Fold(m, events)[key] == m[key])
  {
    if events != [] {
      LastWriterFrom(m, events[..|events| - 1], key);
    }
  }

  /** From the empty map: a key is present exactly when its last event stored a value, which it then has. */
  lemma LastWriterWins(events: seq<Event>, key: string)
    ensures var m := Fold(map[], events); var last := Last(events, key);
      && (key in m <==> last.Some? && last.value.Put?)
      && (key in m ==> m[key] == last.value.value)
  {
    LastWriterFrom(map[], events, key);
  }

  lemma {:induction false} FoldConcat(m: NodeMap, a: seq<Event>, b: seq<Event>)
    ensures Fold(m, a + b) == Fold(Fold(m, a), b)
  {
    if b == [] {
      assert a + b == a;
    } else {
      var n := |b| - 1;
      assert (a + b)[..|a + b| - 1] == a + b[..n];
      FoldConcat(m, a, b[..n]);
    }
  }

  /** Folding batch by batch, errors skipped, is folding all events at once: the batching does not matter. */
  lemma {:induction false} FoldBatches(m: NodeMap, batches: seq<Batch>, b: Batch)
    ensures Fold(m, AllEvents(batches + [b])) == Fold(Fold(m, AllEvents(batches)), EventsOf(b))
    decreases |batches|
  {
    AllEventsSnoc(batches, b);
    FoldConcat(m, AllEvents(batches), EventsOf(b));
  }

  lemma {:induction false} AllEventsSnoc(batches: seq<Batch>, b: Batch)
    ensures AllEvents(batches + [b]) == AllEvents(batches) + EventsOf(b)
  {
    if batches == [] {
      assert batches + [b] == [b];
      assert [b][1..] == [];
    } else {
      assert (batches + [b])[1..] == batches[1..] + [b];
      AllEventsSnoc(batches[1..], b);
    }
  }

  /** Events that are no change leave the map as it is. */
  lemma {:induction false} QuietEvents(m: NodeMap, events: seq<Event>)
    requires !Changes(m, events)
    ensures Fold(m, events) == m
  {
    if events != [] {
      QuietEvents(m, events[..|events| - 1]);
    }
  }

  /** The flag is raised exactly when some event, held against the map before the batch, is a change. */
  lemma {:induction false} ChangesExactly(m: NodeMap, events: seq<Event>)
    ensures Changes(m, events) <==> exists e :: e in events && Touches(m, e)
  {
    if events != [] {
      var before, last := events[..|events| - 1], events[|events| - 1];
      assert events == before + [last];
      ChangesExactly(m, before);
      if !Changes(m, before) {
        QuietEvents(m, before);
      }
    }
  }

  /** A change is a deletion, or an event that would alter the map. */
  lemma TouchesExactly(m: NodeMap, e: Event)
    ensures Touches(m, e) <==> e.Delete? || ApplyEvent(m, e) != m
  {
    if e.Put? && e.key in m && m[e.key] == e.value {
      assert m[e.key := e.value] == m;
    }
  }

  /** Renewing a lease writes the value that is stored: nothing is published. */
  lemma RenewalIsQuiet(m: NodeMap, key: string)
    requires key in m
    ensures !Changes(m, [Put(key, m[key])])
  {
    ChangesExactly(m, [Put(key, m[key])]);
    TouchesExactly(m, Put(key, m[key]));
  }

  /** The last event of the key, if there is one, leaves the key as it was in `m`. */
  predicate Restores(m: NodeMap, events: seq<Event>, key: string) {
    match Last(events, key)
    case None => true
    case Some(Put(_, value)) => key in m && m[key] == value
    case Some(Delete(_)) => key !in m
  }

  /** A batch leaves the map unchanged exactly when every key is restored by its last event. */
  lemma UnchangedExactly(m: NodeMap, events: seq<Event>)
    ensures Fold(m, events) == m <==> forall key :: Restores(m, events, key)
  {
    forall key: string
      ensures Restores(m, events, key) <==>
        && (key in Fold(m, events) <==> key in m)
        && (key in m && key in Fold(m, events) ==> Fold(m, events)[key] == m[key])
    {
      LastWriterFrom(m, events, key);
    }
  }

  /**
   The watcher republishes an unchanged map exactly when some event of the batch is
   a change to the map before it, and yet every key ends as it began.
   */
  lemma RepublishesUnchanged(m: NodeMap, events: seq<Event>)
    ensures Changes(m, events) && Fold(m, events) == m <==>
      (exists e :: e in events && Touches(m, e)) && (forall key :: Restores(m, events, key))
  {
    ChangesExactly(m, events);
    UnchangedExactly(m, events);
  }

  /** Deleting a key that is not stored does so. */
  lemma UnknownDeletionRepublishes(key: string)
    ensures Changes(map[], [Delete(key)]) && Fold(map[], [Delete(key)]) == map[]
  {
    assert Delete(key) in [Delete(key)];
    ChangesExactly(map[], [Delete(key)]);
    UnchangedExactly(map[], [Delete(key)]);
  }

  /** So does a value that is replaced and put back within one batch. */
  lemma RevertedValueRepublishes(key: string, value: string, other: string)
    requires value != other
    ensures var m, events := map[key := value], [Put(key, other), Put(key, value)];
      Changes(m, events) && Fold(m, events) == m
  {
    var m, events := map[key := value], [Put(key, other), Put(key, value)];
    assert events[0] in events;
    assert forall k :: k != key ==> Last(events, k) == Last(events[..1], k) == Last([], k);
    ChangesExactly(m, events);
    UnchangedExactly(m, events);
  }

  lemma PublishedExactly(m: NodeMap, events: seq<Event>)
    ensures Changes(m, events) <==> exists e :: e in events && (e.Delete? || ApplyEvent(m, e) != m)
  {
    ChangesExactly(m, events);
    forall e: Event
      ensures Touches(m, e) <==> e.Delete? || ApplyEvent(m, e) != m
    {
      TouchesExactly(m, e);
    }
  }

  /** `list` is the decoding of the values of `m`, in the order of `keys`, which lists each key once. */
  ghost predicate Decodes(list: seq<ServingService>, keys: seq<string>, m: NodeMap) {
    && Distinct(keys)
    && (forall key :: key in keys <==> key in m)
    && |list| == |keys|
    && forall i :: 0 <= i < |keys| ==> keys[i] in m && DecodeMember(m[keys[i]]) == Some(list[i])
  }

  class Watcher {
    var nodeMap: NodeMap
    /** The last member list sent to the subscribers, and the keys it came from. */
    var memberList: seq<ServingService>
    ghost var keys: seq<string>
    /** Everything the channel has delivered. */
    ghost var seen: seq<Batch>

    /** The map is the fold of all events seen, and the last list sent is that of the current map. */
    ghost predicate Valid()
      reads this
    {
      nodeMap == Fold(map[], AllEvents(seen)) && Decodes(memberList, keys, nodeMap)
    }

    constructor ()
      ensures Valid() && seen == []
    {
      nodeMap := map[];
      memberList := [];
      keys := [];
      seen := [];
    }

    /**
     One turn of the watch loop. It publishes exactly when some event is a change,
     and panics exactly when it then meets a value with fewer than three parts.
     */
    method Receive(updates: Batch) returns (published: bool, panicked: bool)
      requires Valid()
      modifies this
      ensures seen == old(seen) + [updates]
      ensures updates.WatchError? ==> !published && !panicked
      ensures updates.Updates? ==> nodeMap == Fold(old(nodeMap), updates.events)
      ensures updates.Updates? ==>
        (published || panicked <==>
         exists e :: e in updates.events && (e.Delete? || ApplyEvent(old(nodeMap), e) != old(nodeMap)))
      ensures panicked ==> !published && exists key :: key in nodeMap && DecodeMember(nodeMap[key]).None?
      ensures published ==> forall key :: key in nodeMap ==> DecodeMember(nodeMap[key]).Some?
      ensures !panicked ==> Valid()
      ensures !panicked && !published ==> nodeMap == old(nodeMap) && memberList == old(memberList)
      ensures updates.Updates? ==>
        (nodeMap == old(nodeMap) <==> forall key :: Restores(old(nodeMap), updates.events, key))
    {
      FoldBatches(map[], seen, updates);
      seen := seen + [updates];
      published, panicked := false, false;
      if updates.Updates? {
        UnchangedExactly(nodeMap, updates.events);
        var isUpdated := ApplyAll(updates.events);
        if isUpdated {
          panicked := Publish();
          published := !panicked;
        } else {
          PublishedExactly(old(nodeMap), updates.events);
          QuietEvents(old(nodeMap), updates.events);
        }
      }
    }

    method ApplyAll(events: seq<Event>) returns (isUpdated: bool)
      modifies this`nodeMap
      ensures nodeMap == Fold(old(nodeMap), events)
      ensures isUpdated <==> exists e :: e in events && (e.Delete? || ApplyEvent(old(nodeMap), e) != old(nodeMap))
    {
      isUpdated := false;
      var k := 0;
      while k < |events|
        invariant 0 <= k <= |events|
        invariant nodeMap == Fold(old(nodeMap), events[..k])
        invariant isUpdated == Changes(old(nodeMap), events[..k])
      {
        var event := events[k];
        assert events[..k + 1][..k] == events[..k];
        match event {
          case Put(key, value) =>
            if key !in nodeMap || nodeMap[key] != value {
              nodeMap := nodeMap[key := value];
              isUpdated := true;
            }
          case Delete(key) =>
            nodeMap := nodeMap - {key};
            isUpdated := true;
        }
        k := k + 1;
      }
      assert events[..|events|] == events;
      PublishedExactly(old(nodeMap), events);
    }

    /** Decodes the map in whatever order it is ranged over. */
    method Publish() returns (panicked: bool)
      modifies this`memberList, this`keys
      ensures panicked <==> exists key :: key in nodeMap && DecodeMember(nodeMap[key]).None?
      ensures !panicked ==> Decodes(memberList, keys, nodeMap)
    {
      var list: seq<ServingService> := [];
      ghost var order: seq<string> := [];
      var rest := nodeMap.Keys;
      while rest != {}
        invariant rest <= nodeMap.Keys
        invariant forall key :: key in nodeMap <==> key in rest || key in order
        invariant forall key :: key in rest ==> key !in order
        invariant Distinct(order) && |list| == |order|
        invariant forall i :: 0 <= i < |order| ==>
          order[i] in nodeMap && DecodeMember(nodeMap[order[i]]) == Some(list[i])
        decreases rest
      {
        var k :| k in rest;
        var member := DecodeMember(nodeMap[k]);
        if member.None? {
          return true;
        }
        DistinctConcat(order, [k]);
        list := list + [member.value];
        order := order + [k];
        rest := rest - {k};
      }
      panicked := false;
      memberList, keys := list, order;
    }
  }
}

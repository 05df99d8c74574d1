/**
 One request through the cache manager: what `fetchModel` does to the cache and to
 the set TF Serving is configured with, for every answer of the model provider,
 the file system and TF Serving.
 */
module FetchModel {
  import Int64
  import LruInclusion
  import opened Eviction
  import opened LruState
  import opened Models
  import opened Recency
  import opened Sequences
  import opened ServingConfig
  import opened Wrappers

  datatype ServingState = Unknown | Start | Loading | Available | Unloading | End
  datatype StatusReply = StatusError | Reported(state: ServingState)

  /** What the outside world answers during one call, each in case it is asked. */
  datatype Answers = Answers(
    fileExists: bool,
    status: StatusReply,
    size: Option<int>,
    load: Option<Model>,
    accepted: bool,
    polls: nat -> StatusReply)

  /** Providers return the model they were asked for, with a size that is no negative number. */
  ghost predicate ValidAnswers(id: ModelIdentifier, a: Answers) {
    a.load.Some? ==> a.load.value.identifier == id && 0 <= a.load.value.sizeOnDisk <= Int64.MAX
  }

  datatype ManagerState = ManagerState(cache: CacheState, served: seq<Config>)

  /** The identifiers a reload sends: the head of the recency list. */
  function ToServe(list: seq<Model>, maxConcurrentModels: nat): seq<ModelIdentifier> {
    Ids(list)[..if |list| <= maxConcurrentModels then |list| else maxConcurrentModels]
  }

  function Reload(m: ManagerState, max: nat, accepted: bool): ManagerState {
    if accepted then m.(served := GroupBy(ToServe(m.cache.list, max))) else m
  }

  /** A status poll takes place every half second before the timeout; one of them must report the model. */
  ghost predicate PollSucceeds(timeout: real, polls: nat -> StatusReply) {
    exists k: nat :: k as real * 0.5 < timeout && polls(k) == Reported(Available)
  }

  /** There are twice as many polls as seconds; with the timeout of ten seconds that is in use, twenty. */
  lemma PollTimes(timeout: real, polls: nat -> StatusReply)
    ensures PollSucceeds(timeout, polls) <==>
      exists k: nat :: k as real < 2.0 * timeout && polls(k) == Reported(Available)
    ensures PollSucceeds(10.0, polls) <==> exists k: nat :: k < 20 && polls(k) == Reported(Available)
  {
    if k: nat :| k as real < 2.0 * timeout && polls(k) == Reported(Available) {
      assert k as real * 0.5 < timeout;
    }
    if k: nat :| k < 20 && polls(k) == Reported(Available) {
      assert k as real * 0.5 < 10.0;
    }
  }

  predicate NeedsReload(status: StatusReply) {
    status.StatusError? || status.state == Unloading || status.state == End
  }

  /** The state for a code of TF Serving; codes it does not know count as unknown. */
  function StateOf(code: int): ServingState {
    match code
    case 10 => Start
    case 20 => Loading
    case 30 => Available
    case 40 => Unloading
    case 50 => End
    case _ => Unknown
  }

  /** The codes of the known states are told apart. */
  lemma StatesDistinct(code: int, other: int)
    ensures StateOf(code) == StateOf(other) <==>
      code == other || (code !in {10, 20, 30, 40, 50} && other !in {10, 20, 30, 40, 50})
  {
  }

  /** `response` lists the state codes of the versions found, or is absent when the call fails. */
  function GetModelStatus(response: Option<seq<int>>): StatusReply {
    match response
    case None => StatusError
    case Some(states) => if |states| > 0 then Reported(StateOf(states[0])) else StatusError
  }

  /**
   From the response of TF Serving to the decision: a found model is reloaded when TF
   Serving does not answer, answers with no version, or has the first version on its
   way out. A code added to TF Serving later never causes a reload; and of all codes
   only 30 ends a poll.
   */
  lemma ReloadDecision(response: Option<seq<int>>)
    ensures NeedsReload(GetModelStatus(response)) <==>
      response.None? || response.value == [] || response.value[0] == 40 || response.value[0] == 50
    ensures GetModelStatus(response) == Reported(Available) <==>
      response.Some? && response.value != [] && response.value[0] == 30
  {
  }

  /** The section of a miss, from taking the write lock to giving it back. */
  ghost function Miss(m: ManagerState, id: ModelIdentifier, max: nat, timeout: real, a: Answers)
    : (ManagerState, bool)
  {
    match a.size
    case None => (m, false)
    case Some(bytes) =>
      var reserved := m.(cache := EnsureFree(m.cache, bytes));
      match a.load
      case None => (reserved, false)
      case Some(model) =>
        var inserted := reserved.(cache := Put(reserved.cache, id, model));
        (Reload(inserted, max, a.accepted), a.accepted && PollSucceeds(timeout, a.polls))
  }

  /** The whole of `fetchModel`: the state it leaves and whether it succeeds. */
  ghost function Fetch(m: ManagerState, id: ModelIdentifier, max: nat, timeout: real, a: Answers)
    : (ManagerState, bool)
  {
    var looked := m.(cache := Get(m.cache, id));
    if id !in m.cache.index || !a.fileExists then
      Miss(looked, id, max, timeout, a)
    else if NeedsReload(a.status) then
      (Reload(looked, max, a.accepted), a.accepted && PollSucceeds(timeout, a.polls))
    else
      (looked, true)
  }

  /** The first version that TF Serving lists has one of these state codes. */
  predicate FirstState(response: Option<seq<int>>, codes: set<int>) {
    response.Some? && response.value != [] && response.value[0] in codes
  }

  /**
   When a call succeeds, from what TF Serving answers: at once for a model found with
   its file that TF Serving has, not on its way out; and otherwise exactly when the
   model is found or both its size and the model can be had, the config is accepted,
   and one of the polls within the timeout finds the model available.
   */
  lemma FetchSucceeds(m: ManagerState, id: ModelIdentifier, max: nat, timeout: real, a: Answers,
                      response: Option<seq<int>>, polled: nat -> Option<seq<int>>)
    requires a.status == GetModelStatus(response) && forall k :: a.polls(k) == GetModelStatus(polled(k))
    ensures var found := id in m.cache.index && a.fileExists;
      Fetch(m, id, max, timeout, a).1 <==>
        || (found && response.Some? && response.value != [] && response.value[0] !in {40, 50})
        || (&& (found || (a.size.Some? && a.load.Some?))
            && a.accepted
            && exists k: nat :: k as real < 2.0 * timeout && FirstState(polled(k), {30}))
  {
    ReloadDecision(response);
    PollTimes(timeout, a.polls);
    forall k: nat
      ensures FirstState(polled(k), {30}) <==> a.polls(k) == Reported(Available)
    {
      ReloadDecision(polled(k));
    }
  }

  /**
   When a call configures TF Serving, and with what: the served set changes only by an
   accepted reload, to the head of the list that the call leaves.
   */
  lemma FetchServes(m: ManagerState, id: ModelIdentifier, max: nat, timeout: real, a: Answers,
                    response: Option<seq<int>>)
    requires a.status == GetModelStatus(response)
    ensures var after := Fetch(m, id, max, timeout, a).0;
      var reloads := if id in m.cache.index && a.fileExists
        then response.None? || response.value == [] || response.value[0] == 40 || response.value[0] == 50
        else a.size.Some? && a.load.Some?;
      after.served == if reloads && a.accepted then GroupBy(ToServe(after.cache.list, max)) else m.served
  {
    ReloadDecision(response);
  }

  /** A call that finds its model with the file, or learns no size, leaves the cache as its lookup did. */
  lemma FetchWithoutReservation(m: ManagerState, id: ModelIdentifier, max: nat, timeout: real, a: Answers)
    requires (id in m.cache.index && a.fileExists) || a.size.None?
    ensures Fetch(m, id, max, timeout, a).0.cache == Get(m.cache, id)
  {
  }

  /**
   A call whose provider measures what it loads, and whose resident models are on
   disk, does to the cache what a plain access does.
   */
  lemma FetchIsAccess(m: ManagerState, id: ModelIdentifier, max: nat, timeout: real, a: Answers,
                      load: LruInclusion.Provider)
    requires id in m.cache.index ==> a.fileExists
    requires id !in m.cache.index ==> a.load == Some(load(id)) && a.size == Some(load(id).sizeOnDisk)
    ensures Fetch(m, id, max, timeout, a).0.cache == LruInclusion.Access(m.cache, id, load)
  {
    if id !in m.cache.index {
      ReserveThenPut(m.cache, load(id).sizeOnDisk, id, load(id));
    }
  }

  /** One call of a sequence, with the answers it meets. */
  datatype Request = Request(id: ModelIdentifier, answers: Answers)

  function Targets(calls: seq<Request>): seq<ModelIdentifier> {
    if calls == [] then [] else [calls[0].id] + Targets(calls[1..])
  }

  ghost function FetchAll(m: ManagerState, calls: seq<Request>, max: nat, timeout: real): ManagerState
    decreases |calls|
  {
    if calls == [] then m
    else FetchAll(Fetch(m, calls[0].id, max, timeout, calls[0].answers).0, calls[1..], max, timeout)
  }

  lemma {:induction false} FetchAllSnoc(m: ManagerState, calls: seq<Request>, call: Request, max: nat, timeout: real)
    ensures FetchAll(m, calls + [call], max, timeout)
         == Fetch(FetchAll(m, calls, max, timeout), call.id, max, timeout, call.answers).0
    decreases |calls|
  {
    if calls == [] {
      assert (calls + [call])[1..] == [];
    } else {
      assert (calls + [call])[1..] == calls[1..] + [call];
      FetchAllSnoc(Fetch(m, calls[0].id, max, timeout, calls[0].answers).0, calls[1..], call, max, timeout);
    }
  }

  /** Along the calls, residents are on disk and misses measure and load what the provider has. */
  ghost predicate Undisturbed(m: ManagerState, calls: seq<Request>, max: nat, timeout: real,
                              load: LruInclusion.Provider)
    decreases |calls|
  {
    calls == [] ||
    var Request(id, a) := calls[0];
    && (id in m.cache.index ==> a.fileExists)
    && (id !in m.cache.index ==> a.load == Some(load(id)) && a.size == Some(load(id).sizeOnDisk))
    && Undisturbed(Fetch(m, id, max, timeout, a).0, calls[1..], max, timeout, load)
  }

  lemma {:induction false} FetchAllIsRun(m: ManagerState, calls: seq<Request>, max: nat, timeout: real,
                                         load: LruInclusion.Provider)
    requires Undisturbed(m, calls, max, timeout, load)
    ensures FetchAll(m, calls, max, timeout).cache == LruInclusion.Run(m.cache, Targets(calls), load)
    decreases |calls|
  {
    if calls != [] {
      var Request(id, a) := calls[0];
      FetchIsAccess(m, id, max, timeout, a, load);
      FetchAllIsRun(Fetch(m, id, max, timeout, a).0, calls[1..], max, timeout, load);
    }
  }

  /**
   Two managers serve the same sequence of requests, with settings of their own and
   whatever TF Serving answers each: the one with the smaller cache keeps a prefix of
   what the other one keeps.
   */
  lemma FetchInclusion(small: ManagerState, large: ManagerState, calls: seq<Request>, calls': seq<Request>,
                       max: nat, max': nat, timeout: real, timeout': real, load: LruInclusion.Provider)
    requires LruInclusion.Included(small.cache, large.cache)
    requires LruInclusion.ValidProvider(load) && LruInclusion.FromProvider(large.cache, load)
    requires Targets(calls) == Targets(calls')
    requires Undisturbed(small, calls, max, timeout, load) && Undisturbed(large, calls', max', timeout', load)
    ensures LruInclusion.Included(FetchAll(small, calls, max, timeout).cache,
                                  FetchAll(large, calls', max', timeout').cache)
  {
    FetchAllIsRun(small, calls, max, timeout, load);
    FetchAllIsRun(large, calls', max', timeout', load);
    LruInclusion.Inclusion(small.cache, large.cache, Targets(calls), load);
  }

  /*
   * Served models are resident
   */

  ghost predicate ServedResident(m: ManagerState) {
    forall x :: x in Flatten(m.served) ==> x in m.cache.index
  }

  lemma ServedMembers(list: seq<Model>, max: nat)
    ensures ToServe(list, max) <= Ids(list)
    ensures forall x :: x in Flatten(GroupBy(ToServe(list, max))) <==> x in ToServe(list, max)
    ensures |Flatten(GroupBy(ToServe(list, max)))| == if |list| <= max then |list| else max
  {
    var ids := ToServe(list, max);
    FlattenGroupBy(ids);
  }

  /** The first `max` models of the list are served. */
  lemma HeadServed(list: seq<Model>, max: nat, j: nat)
    requires j < |list| && j < max
    ensures list[j].identifier in Flatten(GroupBy(ToServe(list, max)))
  {
    ServedMembers(list, max);
    assert ToServe(list, max)[j] == list[j].identifier;
  }

  /** No others are: a resident model is served exactly when its place is among the first `max`. */
  lemma ServedPlace(c: CacheState, max: nat, j: nat)
    requires WellFormed(c) && j < |c.list|
    ensures c.list[j].identifier in Flatten(GroupBy(ToServe(c.list, max))) <==> j < max
  {
    ServedMembers(c.list, max);
    var ids := ToServe(c.list, max);
    if j < max {
      HeadServed(c.list, max, j);
    } else if c.list[j].identifier in ids {
      var i :| 0 <= i < |ids| && ids[i] == c.list[j].identifier;
      DistinctAt(Ids(c.list), i, j);
      assert false;
    }
  }

  /** Counted in uses: it is served exactly when fewer than `max` others were used after it. */
  lemma ServedByUses(c: CacheState, h: seq<ModelIdentifier>, max: nat, id: ModelIdentifier)
    requires WellFormed(c) && TopOfStack(c, h) && id in c.index
    ensures id in h
    ensures id in Flatten(GroupBy(ToServe(c.list, max))) <==> |UsedAfter(h, id)| < max
  {
    var j := ResidentAt(c, id);
    assert Stack(h)[j] == id;
    StackDepth(h, j, id);
    ServedPlace(c, max, j);
  }

  /** When the list is the top of the recency stack, what is served is exactly the top of that stack. */
  lemma HeadOfStack(c: CacheState, h: seq<ModelIdentifier>, max: nat)
    requires TopOfStack(c, h)
    ensures var n := if |c.list| <= max then |c.list| else max;
      n <= |Stack(h)| && multiset(Flatten(GroupBy(ToServe(c.list, max)))) == multiset(Stack(h)[..n])
  {
    var served := ToServe(c.list, max);
    FlattenGroupBy(served);
    assert Stack(h)[..|served|] == served;
  }

  /** An accepted reload serves residents only, at most `max` of them. */
  lemma ReloadServesResidents(m: ManagerState, max: nat)
    requires WellFormed(m.cache)
    ensures ServedResident(Reload(m, max, true))
    ensures |Flatten(Reload(m, max, true).served)| <= max
  {
    ServedMembers(m.cache.list, max);
    forall x | x in ToServe(m.cache.list, max)
      ensures x in m.cache.index
    {
      assert x in Ids(m.cache.list);
      ResidentIds(m.cache, x);
    }
  }

  /**
   What success means: the requested model is the most recently used resident. It
   was found with its file, and TF Serving knows it; or else TF Serving accepted a
   config, reported the model in time, and serves it if it may serve any.
   */
  lemma SuccessMeansServed(m: ManagerState, id: ModelIdentifier, max: nat, timeout: real, a: Answers)
    requires WellFormed(m.cache) && ValidAnswers(id, a) && Fetch(m, id, max, timeout, a).1
    ensures var after := Fetch(m, id, max, timeout, a).0;
      && after.cache.list != [] && after.cache.list[0].identifier == id
      && (|| (id in m.cache.index && a.fileExists && !NeedsReload(a.status) && after.served == m.served)
          || (&& a.accepted && PollSucceeds(timeout, a.polls)
              && (id in Flatten(after.served) <==> max >= 1)))
  {
    var after := Fetch(m, id, max, timeout, a).0;
    GetKeeps(m.cache, id);
    if id in m.cache.index && a.fileExists {
      var i := ResidentAt(m.cache, id);
    } else {
      var reserved := EnsureFree(Get(m.cache, id), a.size.value);
      EnsureFreeKeeps(Get(m.cache, id), a.size.value);
      PutKeeps(reserved, id, a.load.value);
      PutFront(reserved, id, a.load.value);
    }
    ServedMembers(after.cache.list, max);
    if max >= 1 {
      HeadServed(after.cache.list, max, 0);
    }
  }

  /**
   A call that succeeded makes the next one for the same model idle, as long as the
   file stays: the cache does not change any more. Nor does the served set if the first
   call configured TF Serving, or if TF Serving answers with a first version that is not
   on its way out; in that case the second call also succeeds without a reload.
   */
  lemma RepeatedCall(m: ManagerState, id: ModelIdentifier, max: nat, timeout: real, a: Answers,
                     again: Answers, response: Option<seq<int>>)
    requires WellFormed(m.cache) && ValidAnswers(id, a) && Fetch(m, id, max, timeout, a).1
    requires again.fileExists && again.status == GetModelStatus(response)
    ensures var after := Fetch(m, id, max, timeout, a).0;
      var (second, ok) := Fetch(after, id, max, timeout, again);
      && second.cache == after.cache
      && (id !in m.cache.index || !a.fileExists || NeedsReload(a.status) ==> second == after)
      && (response.Some? && response.value != [] && response.value[0] !in {40, 50} ==> ok && second == after)
  {
    var after := Fetch(m, id, max, timeout, a).0;
    SuccessMeansServed(m, id, max, timeout, a);
    FetchWellFormed(m, id, max, timeout, a);
    FrontStays(after.cache, id);
    assert id in after.cache.index by {
      assert after.cache.list[0] in after.cache.list;
    }
    ReloadDecision(response);
  }

  lemma FrontStays(c: CacheState, id: ModelIdentifier)
    requires Bijection(c) && c.list != [] && c.list[0].identifier == id
    ensures Get(c, id) == c
  {
    assert c.list[0] in c.list;
    FrontDropped(c.list, id);
  }

  lemma FrontDropped(list: seq<Model>, id: ModelIdentifier)
    requires Distinct(Ids(list)) && list != [] && list[0].identifier == id
    ensures [list[0]] + Drop(list, id) == list
  {
    assert Ids(list)[1..] == Ids(list[1..]);
    DropAbsent(list[1..], id);
  }

  /** The call goes wrong after it has evicted: the load fails, or TF Serving refuses the new config. */
  predicate FailsAfterReservation(m: ManagerState, id: ModelIdentifier, a: Answers) {
    && (id !in m.cache.index || !a.fileExists)
    && a.size.Some?
    && (a.load.None? || !a.accepted)
  }

  lemma FetchWellFormed(m: ManagerState, id: ModelIdentifier, max: nat, timeout: real, a: Answers)
    requires WellFormed(m.cache) && ValidAnswers(id, a)
    ensures WellFormed(Fetch(m, id, max, timeout, a).0.cache)
  {
    var c := Get(m.cache, id);
    GetKeeps(m.cache, id);
    if a.size.Some? {
      EnsureFreeKeeps(c, a.size.value);
      if a.load.Some? {
        PutKeeps(EnsureFree(c, a.size.value), id, a.load.value);
      }
    }
  }

  /** Any other call keeps every served model resident, whatever its outcome. */
  lemma FetchKeepsServedResident(m: ManagerState, id: ModelIdentifier, max: nat, timeout: real, a: Answers)
    requires WellFormed(m.cache) && ValidAnswers(id, a) && ServedResident(m)
    requires !FailsAfterReservation(m, id, a)
    ensures ServedResident(Fetch(m, id, max, timeout, a).0)
  {
    var looked := m.(cache := Get(m.cache, id));
    GetKeeps(m.cache, id);
    FetchWellFormed(m, id, max, timeout, a);
    if id !in m.cache.index || !a.fileExists {
      if a.size.Some? {
        var reserved := EnsureFree(looked.cache, a.size.value);
        ReloadServesResidents(looked.(cache := Put(reserved, id, a.load.value)), max);
      }
    } else {
      ReloadServesResidents(looked, max);
    }
  }

  /** `x` is resident and, together with all models used after it, leaves room for the bytes. */
  ghost predicate Fits(c: CacheState, x: ModelIdentifier, bytes: int) {
    exists i :: 0 <= i < |c.list| && c.list[i].identifier == x && Total(c.list[..i + 1]) + bytes <= c.capacity
  }

  lemma FitsExactly(c: CacheState, x: ModelIdentifier, bytes: int)
    requires WellFormed(c)
    ensures x in EnsureFree(c, bytes).index <==> Fits(c, x, bytes)
  {
    EnsureFreeKeeps(c, bytes);
    forall i | 0 <= i < |c.list| && c.list[i].identifier == x
      ensures x in EnsureFree(c, bytes).index <==> Total(c.list[..i + 1]) + bytes <= c.capacity
    {
      SurvivesEviction(c, bytes, i);
    }
    if x in c.index {
      var i := ResidentAt(c, x);
    }
  }

  /** The bytes a miss makes room for: a model that did not survive its own reservation needs all of its own. */
  ghost function Needed(c: CacheState, id: ModelIdentifier, bytes: int, load: Option<Model>): int {
    if load.Some? && load.value.sizeOnDisk > bytes && !Fits(c, id, bytes) then load.value.sizeOnDisk else bytes
  }

  /**
   What is resident after a miss section, whatever state it found: the loaded model,
   and each model that left the needed room. The requested model may have been
   resident all along, at any place of the list: another thread may have brought it in.
   */
  lemma MissKeeps(m: ManagerState, id: ModelIdentifier, max: nat, timeout: real, a: Answers, x: ModelIdentifier)
    requires WellFormed(m.cache) && ValidAnswers(id, a) && a.size.Some?
    ensures x in Miss(m, id, max, timeout, a).0.cache.index <==>
      Fits(m.cache, x, Needed(m.cache, id, a.size.value, a.load)) || (a.load.Some? && x == id)
  {
    var c, bytes := m.cache, a.size.value;
    FitsExactly(c, id, bytes);
    FitsExactly(c, x, Needed(c, id, bytes, a.load));
    if a.load.Some? {
      EnsureFreeTwice(c, bytes, a.load.value.sizeOnDisk);
    }
  }

  /**
   A miss section that fails after its reservation leaves the served models resident
   exactly when each of them left the needed room, or is the model that was loaded.
   */
  lemma FailingMissServedResident(m: ManagerState, id: ModelIdentifier, max: nat, timeout: real, a: Answers)
    requires WellFormed(m.cache) && ValidAnswers(id, a)
    requires a.size.Some? && (a.load.None? || !a.accepted)
    ensures ServedResident(Miss(m, id, max, timeout, a).0) <==>
      forall x :: x in Flatten(m.served) ==>
        Fits(m.cache, x, Needed(m.cache, id, a.size.value, a.load)) || (a.load.Some? && x == id)
  {
    forall x | x in Flatten(m.served)
      ensures x in Miss(m, id, max, timeout, a).0.cache.index <==>
        Fits(m.cache, x, Needed(m.cache, id, a.size.value, a.load)) || (a.load.Some? && x == id)
    {
      MissKeeps(m, id, max, timeout, a, x);
    }
  }

  /** The same for an undisturbed call, whose section finds what its own lookup left. */
  lemma FailingFetchServedResident(m: ManagerState, id: ModelIdentifier, max: nat, timeout: real, a: Answers)
    requires WellFormed(m.cache) && ValidAnswers(id, a)
    requires FailsAfterReservation(m, id, a)
    ensures var c := Get(m.cache, id);
      ServedResident(Fetch(m, id, max, timeout, a).0) <==>
      forall x :: x in Flatten(m.served) ==>
        Fits(c, x, Needed(c, id, a.size.value, a.load)) || (a.load.Some? && x == id)
  {
    GetKeeps(m.cache, id);
    FailingMissServedResident(m.(cache := Get(m.cache, id)), id, max, timeout, a);
  }

  function TwoModels(front: Model, back: Model): CacheState {
    PushFront(PushFront(Empty(10), back.identifier, back), front.identifier, front)
  }

  lemma TwoModelsFit(front: Model, back: Model, bytes: int)
    requires front.identifier != back.identifier && front.sizeOnDisk == 5 && back.sizeOnDisk == 3
    ensures WellFormed(TwoModels(front, back))
    ensures Fits(TwoModels(front, back), front.identifier, bytes) <==> bytes <= 5
    ensures Fits(TwoModels(front, back), back.identifier, bytes) <==> bytes <= 2
  {
    var c := PushFront(Empty(10), back.identifier, back);
    var d := TwoModels(front, back);
    PushFrontKeeps(Empty(10), back.identifier, back);
    PushFrontKeeps(c, front.identifier, front);
    assert d.list == [front, back];
    assert d.list[..1] == [front] && d.list[..2] == d.list && d.list[1..] == [back] && [back][1..] == [];
    assert d.list[0].identifier == front.identifier && d.list[1].identifier == back.identifier;
  }

  /**
   A model that another thread brought in since the lookup, and that is not in front:
   its own reservation evicts it, and its larger size then evicts a served one that
   the reservation left.
   */
  lemma ServedModelEvictedByInsertion(front: Model, back: Model, loaded: Model, polls: nat -> StatusReply)
    requires front.identifier != back.identifier == loaded.identifier
    requires front.sizeOnDisk == 5 && back.sizeOnDisk == 3 && loaded.sizeOnDisk == 6
    ensures var entry := ManagerState(TwoModels(front, back), GroupBy([front.identifier]));
      var after := Miss(entry, loaded.identifier, 1, 10.0,
                        Answers(false, StatusError, Some(4), Some(loaded), false, polls)).0;
      && WellFormed(entry.cache) && ServedResident(entry) && loaded.identifier in entry.cache.index
      && front.identifier in EnsureFree(entry.cache, 4).index
      && front.identifier in Flatten(after.served) && front.identifier !in after.cache.index
  {
    var entry := ManagerState(TwoModels(front, back), GroupBy([front.identifier]));
    TwoModelsFit(front, back, 4);
    TwoModelsFit(front, back, 6);
    FitsExactly(entry.cache, front.identifier, 4);
    FlattenGroupBy([front.identifier]);
    MissKeeps(entry, loaded.identifier, 1, 10.0,
              Answers(false, StatusError, Some(4), Some(loaded), false, polls), front.identifier);
  }

  /** The condition can fail: a cache of one model, a failed load of another, and the first is served but gone. */
  lemma ServedModelEvicted(a: ModelIdentifier, b: ModelIdentifier, polls: nat -> StatusReply)
    requires a != b
    ensures var bytes := 10;
      var first := Answers(false, StatusError, Some(bytes), Some(Model(a, "a", bytes)), true, polls);
      var second := Answers(false, StatusError, Some(bytes), None, true, polls);
      var m := Fetch(ManagerState(Empty(bytes), []), a, 1, 10.0, first).0;
      var n := Fetch(m, b, 1, 10.0, second).0;
      a in Flatten(n.served) && a !in n.cache.index
  {
    var c := PushFront(Empty(10), a, Model(a, "a", 10));
    assert EnsureFree(Empty(10), 10) == Empty(10);
    assert ToServe(c.list, 1) == [a];
    ServedMembers(c.list, 1);
    assert EnsureFree(c, 10) == EnsureFree(Pop(c), 10) == Pop(c);
  }
}

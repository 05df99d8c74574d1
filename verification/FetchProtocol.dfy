/**
 Any number of request threads running `fetchModel` over one cache. A step is one
 operation of one thread: taking or giving back the read/write lock, one cache
 operation, or one call to the outside world. What the lock guarantees is proved,
 not assumed; a single cache operation is atomic.
 */
module FetchProtocol {
  import Int64
  import opened FetchModel
  import opened LruState
  import opened Models
  import opened Recency
  import opened ServingConfig
  import opened Wrappers

  type Thread = nat
  datatype Settings = Settings(capacity: int, max: nat)

  /** How far a thread has got inside its write section. */
  datatype Stage =
    | Sizing(id: ModelIdentifier)
    | Reserved(id: ModelIdentifier, bytes: int)
    | Inserting(id: ModelIdentifier, bytes: int, model: Model)
    | Configuring(id: ModelIdentifier, bytes: int, model: Model)
    | MissDone(id: ModelIdentifier, size: Option<int>, load: Option<Model>, accepted: bool)
    | Reconfiguring(model: Model, mark: nat)
    | ReloadDone(model: Model, mark: nat, accepted: bool)

  /**
   Where a thread is. `mark` is the length of the history right after the lookup,
   and `entry` the state when the write lock was taken; both only serve to state
   properties.
   */
  datatype PC =
    | Idle
    | AwaitRead(id: ModelIdentifier)
    | Reading(id: ModelIdentifier)
    | Looked(id: ModelIdentifier, found: Option<Model>, mark: nat)
    | Checking(model: Model, mark: nat)
    | AwaitMiss(id: ModelIdentifier)
    | AwaitReload(model: Model, mark: nat)
    | Writing(stage: Stage, entry: ManagerState)

  /** `dirty`: a miss failed after its reservation, and no reload was accepted since. */
  datatype State = State(
    m: ManagerState,
    readers: set<Thread>,
    writer: Option<Thread>,
    threads: map<Thread, PC>,
    history: seq<ModelIdentifier>,
    dirty: bool)

  function Init(p: Settings): State {
    State(ManagerState(Empty(p.capacity), []), {}, None, map[], [], false)
  }

  function At(s: State, t: Thread): PC {
    if t in s.threads then s.threads[t] else Idle
  }

  function Goto(s: State, t: Thread, pc: PC): State {
    s.(threads := s.threads[t := pc])
  }

  datatype Action =
    | Call(t: Thread, id: ModelIdentifier)
    | RLock(t: Thread)
    | Look(t: Thread, fileExists: bool)
    | RUnlock(t: Thread)
    | Status(t: Thread, reply: StatusReply)
    | Lock(t: Thread)
    | Size(t: Thread, size: Option<int>)
    | Load(t: Thread, load: Option<Model>)
    | Insert(t: Thread)
    | Configure(t: Thread, accepted: bool)
    | Unlock(t: Thread)

  predicate Enabled(s: State, a: Action) {
    var pc := At(s, a.t);
    match a
    case Call(_, _) => pc.Idle?
    case RLock(_) => pc.AwaitRead? && s.writer.None?
    case Look(_, _) => pc.Reading?
    case RUnlock(_) => pc.Looked?
    case Status(_, _) => pc.Checking?
    case Lock(_) => (pc.AwaitMiss? || pc.AwaitReload?) && s.writer.None? && s.readers == {}
    case Size(_, _) => pc.Writing? && pc.stage.Sizing?
    case Load(_, load) =>
      && pc.Writing? && pc.stage.Reserved?
      && (load.Some? ==> load.value.identifier == pc.stage.id && 0 <= load.value.sizeOnDisk <= Int64.MAX)
    case Insert(_) => pc.Writing? && pc.stage.Inserting?
    case Configure(_, _) => pc.Writing? && (pc.stage.Configuring? || pc.stage.Reconfiguring?)
    case Unlock(_) => pc.Writing? && (pc.stage.MissDone? || pc.stage.ReloadDone?)
  }

  function Next(p: Settings, s: State, a: Action): State
    requires Enabled(s, a)
  {
    var pc := At(s, a.t);
    match a
    case Call(t, id) => Goto(s, t, AwaitRead(id))
    case RLock(t) => Goto(s, t, Reading(pc.id)).(readers := s.readers + {t})
    case Look(t, fileExists) =>
      var h := s.history + Uses(s.m.cache, OpGet(pc.id));
      var found := if fileExists then Lookup(s.m.cache, pc.id) else None;
      Goto(s, t, Looked(pc.id, found, |h|)).(m := s.m.(cache := Get(s.m.cache, pc.id)), history := h)
    case RUnlock(t) =>
      var next := match pc.found case Some(model) => Checking(model, pc.mark) case None => AwaitMiss(pc.id);
      Goto(s, t, next).(readers := s.readers - {t})
    case Status(t, reply) =>
      Goto(s, t, if NeedsReload(reply) then AwaitReload(pc.model, pc.mark) else Idle)
    case Lock(t) =>
      var stage := if pc.AwaitMiss? then Sizing(pc.id) else Reconfiguring(pc.model, pc.mark);
      Goto(s, t, Writing(stage, s.m)).(writer := Some(t))
    case Size(t, None) => Goto(s, t, pc.(stage := MissDone(pc.stage.id, None, None, false)))
    case Size(t, Some(bytes)) =>
      Goto(s, t, pc.(stage := Reserved(pc.stage.id, bytes)))
        .(m := s.m.(cache := EnsureFree(s.m.cache, bytes)))
    case Load(t, None) =>
      Goto(s, t, pc.(stage := MissDone(pc.stage.id, Some(pc.stage.bytes), None, false))).(dirty := true)
    case Load(t, Some(model)) => Goto(s, t, pc.(stage := Inserting(pc.stage.id, pc.stage.bytes, model)))
    case Insert(t) =>
      Goto(s, t, pc.(stage := Configuring(pc.stage.id, pc.stage.bytes, pc.stage.model)))
        .(m := s.m.(cache := Put(s.m.cache, pc.stage.id, pc.stage.model)), history := s.history + [pc.stage.id])
    case Configure(t, accepted) =>
      var done := match pc.stage
        case Configuring(id, bytes, model) => MissDone(id, Some(bytes), Some(model), accepted)
        case Reconfiguring(model, mark) => ReloadDone(model, mark, accepted);
      Goto(s, t, pc.(stage := done))
        .(m := Reload(s.m, p.max, accepted), dirty := !accepted && (pc.stage.Configuring? || s.dirty))
    case Unlock(t) => Goto(s, t, Idle).(writer := None)
  }

  /*
   * Invariants
   */

  ghost predicate LockInv(s: State) {
    && (forall t: Thread :: t in s.readers <==> At(s, t).Reading? || At(s, t).Looked?)
    && (forall t: Thread :: s.writer == Some(t) <==> At(s, t).Writing?)
    && (s.writer.Some? ==> s.readers == {})
  }

  ghost predicate CacheInv(p: Settings, s: State) {
    && WellFormed(s.m.cache) && s.m.cache.capacity == p.capacity
    && TopOfStack(s.m.cache, s.history)
  }

  ghost predicate StageOk(stage: Stage, h: seq<ModelIdentifier>) {
    match stage
    case Inserting(id, _, model) => model.identifier == id && 0 <= model.sizeOnDisk <= Int64.MAX
    case Configuring(id, _, model) => model.identifier == id && 0 <= model.sizeOnDisk <= Int64.MAX
    case MissDone(id, _, Some(model), _) => model.identifier == id && 0 <= model.sizeOnDisk <= Int64.MAX
    case Reconfiguring(model, mark) => MarkOk(model, mark, h)
    case ReloadDone(model, mark, _) => MarkOk(model, mark, h)
    case _ => true
  }

  /** The use recorded just before `mark` is that of the model itself. */
  ghost predicate MarkOk(model: Model, mark: nat, h: seq<ModelIdentifier>) {
    0 < mark <= |h| && h[mark - 1] == model.identifier
  }

  ghost predicate ThreadOk(pc: PC, h: seq<ModelIdentifier>) {
    match pc
    case Looked(_, Some(model), mark) => MarkOk(model, mark, h)
    case Checking(model, mark) => MarkOk(model, mark, h)
    case AwaitReload(model, mark) => MarkOk(model, mark, h)
    case Writing(stage, entry) => StageOk(stage, h) && WellFormed(entry.cache)
    case _ => true
  }

  ghost predicate ThreadsInv(s: State) {
    forall t: Thread :: ThreadOk(At(s, t), s.history)
  }

  /** What a write section has made of the state it found, up to its stage. */
  ghost function Effect(stage: Stage, entry: ManagerState, max: nat): ManagerState {
    match stage
    case Sizing(_) => entry
    case Reserved(_, bytes) => entry.(cache := EnsureFree(entry.cache, bytes))
    case Inserting(_, bytes, _) => entry.(cache := EnsureFree(entry.cache, bytes))
    case Configuring(id, bytes, model) => entry.(cache := Put(EnsureFree(entry.cache, bytes), id, model))
    case MissDone(_, None, _, _) => entry
    case MissDone(_, Some(bytes), None, _) => entry.(cache := EnsureFree(entry.cache, bytes))
    case MissDone(id, Some(bytes), Some(model), accepted) =>
      Reload(entry.(cache := Put(EnsureFree(entry.cache, bytes), id, model)), max, accepted)
    case Reconfiguring(_, _) => entry
    case ReloadDone(_, _, accepted) => Reload(entry, max, accepted)
  }

  ghost predicate EffectInv(p: Settings, s: State) {
    s.writer.Some? ==>
      var pc := At(s, s.writer.value);
      pc.Writing? ==> s.m == Effect(pc.stage, pc.entry, p.max)
  }

  /** A miss has evicted and not reloaded yet. */
  predicate MidMiss(s: State) {
    s.writer.Some? &&
    var pc := At(s, s.writer.value);
    pc.Writing? && (pc.stage.Reserved? || pc.stage.Inserting? || pc.stage.Configuring?)
  }

  ghost predicate ServedInv(p: Settings, s: State) {
    && (!s.dirty && !MidMiss(s) ==> ServedResident(s.m))
    && |Flatten(s.m.served)| <= p.max
  }

  ghost predicate Inv(p: Settings, s: State) {
    LockInv(s) && CacheInv(p, s) && ThreadsInv(s) && EffectInv(p, s) && ServedInv(p, s)
  }

  /*
   * Every step keeps them
   */

  lemma LockStep(p: Settings, s: State, a: Action)
    requires Enabled(s, a) && LockInv(s)
    ensures LockInv(Next(p, s, a))
  {
    var s' := Next(p, s, a);
    assert forall t: Thread :: t != a.t ==> At(s', t) == At(s, t);
  }

  lemma CacheStep(p: Settings, s: State, a: Action)
    requires Enabled(s, a) && CacheInv(p, s) && ThreadsInv(s)
    ensures CacheInv(p, Next(p, s, a))
  {
    var pc := At(s, a.t);
    match a
    case Look(_, _) => ApplyTop(s.m.cache, OpGet(pc.id), s.history);
    case Size(_, Some(bytes)) =>
      ApplyTop(s.m.cache, OpEnsureFree(bytes), s.history);
      assert s.history + [] == s.history;
    case Insert(_) =>
      assert ThreadOk(pc, s.history);
      ApplyTop(s.m.cache, OpPut(pc.stage.model), s.history);
    case _ =>
  }

  /** What is known of a thread stays true as the history grows. */
  lemma ThreadOkStable(pc: PC, h: seq<ModelIdentifier>, h': seq<ModelIdentifier>)
    requires ThreadOk(pc, h) && h <= h'
    ensures ThreadOk(pc, h')
  {
  }

  lemma MovedThreadOk(p: Settings, s: State, a: Action)
    requires Enabled(s, a) && CacheInv(p, s) && ThreadOk(At(s, a.t), s.history)
    ensures ThreadOk(At(Next(p, s, a), a.t), Next(p, s, a).history)
  {
    var pc := At(s, a.t);
    if a.Look? && pc.id in s.m.cache.index {
      var i := ResidentAt(s.m.cache, pc.id);
    }
  }

  lemma ThreadsStep(p: Settings, s: State, a: Action)
    requires Enabled(s, a) && CacheInv(p, s) && ThreadsInv(s)
    ensures ThreadsInv(Next(p, s, a))
  {
    var s' := Next(p, s, a);
    forall t: Thread
      ensures ThreadOk(At(s', t), s'.history)
    {
      if t == a.t {
        MovedThreadOk(p, s, a);
      } else {
        ThreadOkStable(At(s, t), s.history, s'.history);
      }
    }
  }

  /** The writer's own steps carry its section on. */
  lemma WriterEffect(p: Settings, s: State, a: Action)
    requires Enabled(s, a) && At(s, a.t).Writing?
    requires s.m == Effect(At(s, a.t).stage, At(s, a.t).entry, p.max)
    ensures var pc := At(Next(p, s, a), a.t);
      pc.Writing? ==> Next(p, s, a).m == Effect(pc.stage, pc.entry, p.max)
  {
    if a.Configure? {
      ConfigureEffect(p, s, a);
    }
  }

  lemma ConfigureEffect(p: Settings, s: State, a: Action)
    requires a.Configure? && Enabled(s, a)
    requires s.m == Effect(At(s, a.t).stage, At(s, a.t).entry, p.max)
    ensures var pc := At(Next(p, s, a), a.t);
      Next(p, s, a).m == Effect(pc.stage, pc.entry, p.max)
  {
  }

  /** While one thread writes, no step of another touches the cache or the served set. */
  lemma BystanderEffect(p: Settings, s: State, a: Action)
    requires Enabled(s, a) && LockInv(s)
    requires s.writer.Some? && s.writer != Some(a.t)
    ensures Next(p, s, a).m == s.m && Next(p, s, a).writer == s.writer
    ensures At(Next(p, s, a), s.writer.value) == At(s, s.writer.value)
  {
    assert a.t !in s.readers && !At(s, a.t).Writing?;
  }

  lemma EffectStep(p: Settings, s: State, a: Action)
    requires Enabled(s, a) && LockInv(s) && EffectInv(p, s)
    ensures EffectInv(p, Next(p, s, a))
  {
    if s.writer == Some(a.t) {
      WriterEffect(p, s, a);
    } else if s.writer.Some? {
      BystanderEffect(p, s, a);
    }
  }

  lemma ServedStep(p: Settings, s: State, a: Action)
    requires Enabled(s, a) && LockInv(s) && CacheInv(p, s) && ServedInv(p, s)
    ensures ServedInv(p, Next(p, s, a))
  {
    var s' := Next(p, s, a);
    match a
    case Look(_, _) => GetKeeps(s.m.cache, At(s, a.t).id);
    case Configure(_, accepted) =>
      ReloadServesResidents(s.m, p.max);
    case _ =>
  }

  lemma Step(p: Settings, s: State, a: Action)
    requires Enabled(s, a) && Inv(p, s)
    ensures Inv(p, Next(p, s, a))
  {
    LockStep(p, s, a);
    CacheStep(p, s, a);
    ThreadsStep(p, s, a);
    EffectStep(p, s, a);
    ServedStep(p, s, a);
  }

  /*
   * Runs
   */

  ghost predicate Feasible(p: Settings, s: State, run: seq<Action>)
    decreases |run|
  {
    run == [] || (Enabled(s, run[0]) && Feasible(p, Next(p, s, run[0]), run[1..]))
  }

  ghost function After(p: Settings, s: State, run: seq<Action>): State
    requires Feasible(p, s, run)
    decreases |run|
  {
    if run == [] then s else After(p, Next(p, s, run[0]), run[1..])
  }

  ghost predicate ValidSettings(p: Settings) {
    0 <= p.capacity <= Int64.MAX
  }

  ghost predicate Reachable(p: Settings, s: State) {
    exists run :: Feasible(p, Init(p), run) && After(p, Init(p), run) == s
  }

  lemma {:induction false} RunKeeps(p: Settings, s: State, run: seq<Action>)
    requires Inv(p, s) && Feasible(p, s, run)
    ensures Inv(p, After(p, s, run))
    decreases |run|
  {
    if run != [] {
      Step(p, s, run[0]);
      RunKeeps(p, Next(p, s, run[0]), run[1..]);
    }
  }

  /** The invariant holds in every state of every interleaving. */
  lemma Safety(p: Settings, s: State)
    requires ValidSettings(p) && Reachable(p, s)
    ensures Inv(p, s)
  {
    var run :| Feasible(p, Init(p), run) && After(p, Init(p), run) == s;
    RunKeeps(p, Init(p), run);
  }

  /*
   * What it means
   */

  /** A thread that writes is alone: nobody else writes or reads. */
  lemma MutualExclusion(p: Settings, s: State, t: Thread, u: Thread)
    requires ValidSettings(p) && Reachable(p, s) && t != u
    requires At(s, t).Writing?
    ensures !At(s, u).Writing? && !At(s, u).Reading? && !At(s, u).Looked?
  {
    Safety(p, s);
    assert s.writer == Some(t) && u !in s.readers;
  }

  /**
   However the threads interleave, the bookkeeping stays exact: no identifier is
   resident twice, so two threads that missed the same model charge it once, and
   the byte count is the sum of the resident sizes and within the bound.
   */
  lemma Bookkeeping(p: Settings, s: State)
    requires ValidSettings(p) && Reachable(p, s)
    ensures Bijection(s.m.cache) && s.m.cache.currentSize == Total(s.m.cache.list)
    ensures s.m.cache.currentSize <= p.capacity || |s.m.cache.list| == 1
    ensures 0 <= s.m.cache.currentSize <= Int64.MAX
  {
    Safety(p, s);
    CurrentSizeInRange(s.m.cache);
  }

  /** TF Serving is never configured with more than `max` models. */
  lemma ServedBound(p: Settings, s: State)
    requires ValidSettings(p) && Reachable(p, s)
    ensures |Flatten(s.m.served)| <= p.max
  {
    Safety(p, s);
  }

  /** Every model that was used and is gone was used less recently than every resident one. */
  lemma EvictsLeastRecent(p: Settings, s: State, kept: ModelIdentifier, gone: ModelIdentifier)
    requires ValidSettings(p) && Reachable(p, s)
    requires kept in s.m.cache.index && gone in s.history && gone !in s.m.cache.index
    ensures kept in s.history && LastUse(s.history, kept) > LastUse(s.history, gone)
  {
    Safety(p, s);
    KeptAreMoreRecent(s.m.cache, s.history, kept, gone);
  }

  /**
   A write section is atomic: when a miss is about to give back the lock, cache and
   served set are what the sequential miss section makes of the state that the
   thread found when it took the lock, whatever all other threads did meanwhile.
   */
  lemma MissIsAtomic(p: Settings, s: State, t: Thread, timeout: real, polls: nat -> StatusReply)
    requires ValidSettings(p) && Reachable(p, s)
    requires At(s, t).Writing? && At(s, t).stage.MissDone?
    ensures var pc := At(s, t); var stage := pc.stage;
      s.m == Miss(pc.entry, stage.id, p.max, timeout,
                  Answers(false, StatusError, stage.size, stage.load, stage.accepted, polls)).0
  {
    Safety(p, s);
    assert s.writer == Some(t);
  }

  /**
   So a miss section that failed after its reservation leaves the served models
   resident exactly when each of them left the needed room in the cache that the
   section found, or is the model that was loaded.
   */
  lemma FailedMissServedResident(p: Settings, s: State, t: Thread)
    requires ValidSettings(p) && Reachable(p, s)
    requires At(s, t).Writing? && At(s, t).stage.MissDone?
    requires At(s, t).stage.size.Some? && (At(s, t).stage.load.None? || !At(s, t).stage.accepted)
    ensures var stage, entry := At(s, t).stage, At(s, t).entry;
      ServedResident(s.m) <==>
      forall x :: x in Flatten(entry.served) ==>
        || Fits(entry.cache, x, Needed(entry.cache, stage.id, stage.size.value, stage.load))
        || (stage.load.Some? && x == stage.id)
  {
    Safety(p, s);
    var stage, entry := At(s, t).stage, At(s, t).entry;
    var a := Answers(false, StatusError, stage.size, stage.load, stage.accepted, _ => StatusError);
    assert ThreadOk(At(s, t), s.history);
    MissIsAtomic(p, s, t, 0.0, a.polls);
    FailingMissServedResident(entry, stage.id, p.max, 0.0, a);
  }

  lemma ReloadIsAtomic(p: Settings, s: State, t: Thread)
    requires ValidSettings(p) && Reachable(p, s)
    requires At(s, t).Writing? && At(s, t).stage.ReloadDone?
    ensures s.m == Reload(At(s, t).entry, p.max, At(s, t).stage.accepted)
  {
    Safety(p, s);
    assert s.writer == Some(t);
  }

  /** Without a failed load or a refused config, all that is served is resident whenever no write section is open. */
  lemma ServedStaysResident(p: Settings, run: seq<Action>)
    requires ValidSettings(p) && Feasible(p, Init(p), run)
    requires forall a :: a in run ==> !(a.Load? && a.load.None?) && !(a.Configure? && !a.accepted)
    ensures var s := After(p, Init(p), run); s.writer.None? ==> ServedResident(s.m)
  {
    RunKeeps(p, Init(p), run);
    CleanRun(p, Init(p), run);
  }

  lemma {:induction false} CleanRun(p: Settings, s: State, run: seq<Action>)
    requires Feasible(p, s, run) && !s.dirty
    requires forall a :: a in run ==> !(a.Load? && a.load.None?) && !(a.Configure? && !a.accepted)
    ensures !After(p, s, run).dirty
    decreases |run|
  {
    if run != [] {
      assert run[0] in run;
      CleanRun(p, Next(p, s, run[0]), run[1..]);
    }
  }

  /** Each accepted reload serves exactly the most recently used identifiers, as many as fit. */
  lemma ServesMostRecent(p: Settings, s: State, a: Action)
    requires ValidSettings(p) && Reachable(p, s)
    requires a.Configure? && a.accepted && Enabled(s, a)
    ensures var n := if |s.m.cache.list| <= p.max then |s.m.cache.list| else p.max;
      n <= |Stack(s.history)| &&
      multiset(Flatten(Next(p, s, a).m.served)) == multiset(Stack(s.history)[..n])
  {
    Safety(p, s);
    HeadOfStack(s.m.cache, s.history, p.max);
  }

  /** A miss that gets its config accepted has the requested model served. */
  lemma MissServesRequested(p: Settings, s: State, a: Action)
    requires ValidSettings(p) && Reachable(p, s) && p.max >= 1
    requires a.Configure? && a.accepted && Enabled(s, a) && At(s, a.t).stage.Configuring?
    ensures At(s, a.t).stage.id in Flatten(Next(p, s, a).m.served)
  {
    Safety(p, s);
    var stage := At(s, a.t).stage;
    assert s.writer == Some(a.t) && ThreadOk(At(s, a.t), s.history);
    PutFront(EnsureFree(At(s, a.t).entry.cache, stage.bytes), stage.id, stage.model);
    HeadServed(s.m.cache.list, p.max, 0);
  }

  /** A thread that is to reload a model found resident at time `mark`. */
  ghost predicate ToReload(s: State, t: Thread, model: Model, mark: nat) {
    At(s, t) == AwaitReload(model, mark) ||
    (At(s, t).Writing? && At(s, t).stage == Reconfiguring(model, mark))
  }

  /** Each other model used after its last use has pushed the model back by one place, and nothing else has. */
  lemma InterferenceBound(p: Settings, s: State, t: Thread, model: Model, mark: nat, j: nat)
    requires ValidSettings(p) && Reachable(p, s) && ToReload(s, t, model, mark)
    requires j < |s.m.cache.list| && s.m.cache.list[j].identifier == model.identifier
    ensures mark <= |s.history| && model.identifier in s.history
    ensures j == |UsedAfter(s.history, model.identifier)| <= |OthersSince(s.history, mark, model.identifier)|
  {
    Safety(p, s);
    MarkKnown(s, t, model, mark);
    assert Stack(s.history)[j] == Ids(s.m.cache.list)[j];
    DepthBound(s.history, mark, j, model.identifier);
  }

  lemma MarkKnown(s: State, t: Thread, model: Model, mark: nat)
    requires ThreadsInv(s) && ToReload(s, t, model, mark)
    ensures MarkOk(model, mark, s.history)
  {
    assert ThreadOk(At(s, t), s.history);
  }

  /** So a resident model is served if fewer than `max` others were used between its lookup and the reload. */
  lemma ReloadServesRequested(p: Settings, s: State, a: Action, model: Model, mark: nat)
    requires ValidSettings(p) && Reachable(p, s)
    requires a.Configure? && a.accepted && Enabled(s, a)
    requires ToReload(s, a.t, model, mark) && model.identifier in s.m.cache.index
    requires mark <= |s.history| && |OthersSince(s.history, mark, model.identifier)| < p.max
    ensures model.identifier in Flatten(Next(p, s, a).m.served)
  {
    Safety(p, s);
    var j := ResidentAt(s.m.cache, model.identifier);
    InterferenceBound(p, s, a.t, model, mark, j);
    HeadServed(s.m.cache.list, p.max, j);
  }

  /**
   Exactly which models an accepted reload serves: those that are resident and
   after whose last use fewer than `max` distinct others were used.
   */
  lemma ServedExactly(p: Settings, s: State, a: Action, id: ModelIdentifier)
    requires ValidSettings(p) && Reachable(p, s)
    requires a.Configure? && a.accepted && Enabled(s, a)
    ensures id in s.m.cache.index ==> id in s.history
    ensures id in Flatten(Next(p, s, a).m.served) <==>
      id in s.m.cache.index && |UsedAfter(s.history, id)| < p.max
  {
    Safety(p, s);
    assert Next(p, s, a).m == Reload(s.m, p.max, true);
    ServedByReload(p, s.m, s.history, id);
  }

  lemma ServedByReload(p: Settings, m: ManagerState, h: seq<ModelIdentifier>, id: ModelIdentifier)
    requires WellFormed(m.cache) && TopOfStack(m.cache, h)
    ensures id in m.cache.index ==> id in h
    ensures id in Flatten(Reload(m, p.max, true).served) <==> id in m.cache.index && |UsedAfter(h, id)| < p.max
  {
    if id in m.cache.index {
      ServedByUses(m.cache, h, p.max, id);
    } else {
      ReloadServesResidents(m, p.max);
    }
  }

  /*
   * One call by itself: the steps refine the sequential call
   */

  /** The outside world answers the step as `ans` says. */
  predicate Answered(a: Action, id: ModelIdentifier, ans: Answers) {
    match a
    case Call(_, called) => called == id
    case Look(_, fileExists) => fileExists == ans.fileExists
    case Status(_, reply) => reply == ans.status
    case Size(_, size) => size == ans.size
    case Load(_, load) => load == ans.load
    case Configure(_, accepted) => accepted == ans.accepted
    case _ => true
  }

  /** The steps that take thread `t`, and no other, to the end of its call. */
  ghost predicate ToTheEnd(p: Settings, s: State, t: Thread, id: ModelIdentifier, ans: Answers, run: seq<Action>)
    decreases |run|
  {
    if run == [] then At(s, t).Idle?
    else
      && !At(s, t).Idle? && run[0].t == t && Enabled(s, run[0]) && Answered(run[0], id, ans)
      && ToTheEnd(p, Next(p, s, run[0]), t, id, ans, run[1..])
  }

  /** What a call will have made of the state by its end, from where its thread is now. */
  ghost function Outcome(pc: PC, m: ManagerState, max: nat, timeout: real, ans: Answers): ManagerState {
    match pc
    case Idle => m
    case AwaitRead(id) => Fetch(m, id, max, timeout, ans).0
    case Reading(id) => Fetch(m, id, max, timeout, ans).0
    case Looked(id, None, _) => Miss(m, id, max, timeout, ans).0
    case Looked(_, Some(_), _) => if NeedsReload(ans.status) then Reload(m, max, ans.accepted) else m
    case Checking(_, _) => if NeedsReload(ans.status) then Reload(m, max, ans.accepted) else m
    case AwaitMiss(id) => Miss(m, id, max, timeout, ans).0
    case AwaitReload(_, _) => Reload(m, max, ans.accepted)
    case Writing(stage, _) =>
      match stage
      case Sizing(id) => Miss(m, id, max, timeout, ans).0
      case Reserved(id, _) =>
        if ans.load.None? then m
        else Reload(m.(cache := Put(m.cache, id, ans.load.value)), max, ans.accepted)
      case Inserting(id, _, model) => Reload(m.(cache := Put(m.cache, id, model)), max, ans.accepted)
      case Configuring(_, _, _) => Reload(m, max, ans.accepted)
      case Reconfiguring(_, _) => Reload(m, max, ans.accepted)
      case MissDone(_, _, _, _) => m
      case ReloadDone(_, _, _) => m
  }

  /** No step of the call changes what its outcome will be. */
  lemma OutcomeStep(p: Settings, s: State, a: Action, id: ModelIdentifier, timeout: real, ans: Answers)
    requires Enabled(s, a) && Answered(a, id, ans) && !At(s, a.t).Idle?
    ensures var s' := Next(p, s, a);
      Outcome(At(s', a.t), s'.m, p.max, timeout, ans) == Outcome(At(s, a.t), s.m, p.max, timeout, ans)
  {
  }

  lemma {:induction false} OutcomeReached(p: Settings, s: State, t: Thread, id: ModelIdentifier, timeout: real,
                                          ans: Answers, run: seq<Action>)
    requires ToTheEnd(p, s, t, id, ans, run)
    ensures Feasible(p, s, run) && After(p, s, run).m == Outcome(At(s, t), s.m, p.max, timeout, ans)
    decreases |run|
  {
    if run != [] {
      OutcomeStep(p, s, run[0], id, timeout, ans);
      OutcomeReached(p, Next(p, s, run[0]), t, id, timeout, ans, run[1..]);
    }
  }

  /** A call whose steps no other thread interrupts does what the sequential call does. */
  lemma CallRefinesFetch(p: Settings, s: State, t: Thread, id: ModelIdentifier, timeout: real,
                         ans: Answers, run: seq<Action>)
    requires Enabled(s, Call(t, id)) && ToTheEnd(p, Next(p, s, Call(t, id)), t, id, ans, run)
    ensures Feasible(p, s, [Call(t, id)] + run)
    ensures After(p, s, [Call(t, id)] + run).m == Fetch(s.m, id, p.max, timeout, ans).0
  {
    OutcomeReached(p, Next(p, s, Call(t, id)), t, id, timeout, ans, run);
    assert ([Call(t, id)] + run)[1..] == run;
  }

  /** The one step that a thread within a call can take, given the answers. */
  function Move(pc: PC, t: Thread, ans: Answers): Action
    requires !pc.Idle?
  {
    match pc
    case AwaitRead(_) => RLock(t)
    case Reading(_) => Look(t, ans.fileExists)
    case Looked(_, _, _) => RUnlock(t)
    case Checking(_, _) => Status(t, ans.status)
    case AwaitMiss(_) => Lock(t)
    case AwaitReload(_, _) => Lock(t)
    case Writing(stage, _) =>
      match stage
      case Sizing(_) => Size(t, ans.size)
      case Reserved(_, _) => Load(t, ans.load)
      case Inserting(_, _, _) => Insert(t)
      case Configuring(_, _, _) => Configure(t, ans.accepted)
      case Reconfiguring(_, _) => Configure(t, ans.accepted)
      case MissDone(_, _, _, _) => Unlock(t)
      case ReloadDone(_, _, _) => Unlock(t)
  }

  /** How many steps are left at most. */
  function StepsLeft(pc: PC): nat {
    match pc
    case Idle => 0
    case AwaitRead(_) => 9
    case Reading(_) => 8
    case Looked(_, _, _) => 7
    case Checking(_, _) => 6
    case AwaitMiss(_) => 6
    case AwaitReload(_, _) => 5
    case Writing(stage, _) =>
      match stage
      case Sizing(_) => 5
      case Reserved(_, _) => 4
      case Inserting(_, _, _) => 3
      case Configuring(_, _, _) => 2
      case Reconfiguring(_, _) => 2
      case MissDone(_, _, _, _) => 1
      case ReloadDone(_, _, _) => 1
  }

  /** The thread works for `id`, as far as that still matters. */
  predicate WorksFor(pc: PC, id: ModelIdentifier) {
    match pc
    case AwaitRead(asked) => asked == id
    case Reading(asked) => asked == id
    case Looked(asked, _, _) => asked == id
    case AwaitMiss(asked) => asked == id
    case Writing(Sizing(asked), _) => asked == id
    case Writing(Reserved(asked, _), _) => asked == id
    case _ => true
  }

  /** Nobody but `t` holds the lock. */
  ghost predicate Undisputed(s: State, t: Thread) {
    LockInv(s) && (s.writer.None? || s.writer == Some(t)) && s.readers <= {t}
  }

  lemma MoveProgress(p: Settings, s: State, t: Thread, id: ModelIdentifier, ans: Answers)
    requires Undisputed(s, t) && WorksFor(At(s, t), id) && ValidAnswers(id, ans) && !At(s, t).Idle?
    ensures var a := Move(At(s, t), t, ans);
      && a.t == t && Enabled(s, a) && Answered(a, id, ans)
      && Undisputed(Next(p, s, a), t) && WorksFor(At(Next(p, s, a), t), id)
      && StepsLeft(At(Next(p, s, a), t)) < StepsLeft(At(s, t))
  {
    assert s.readers == {} || s.readers == {t};
    LockStep(p, s, Move(At(s, t), t, ans));
  }

  lemma {:induction false} Completes(p: Settings, s: State, t: Thread, id: ModelIdentifier, ans: Answers)
    returns (run: seq<Action>)
    requires Undisputed(s, t) && WorksFor(At(s, t), id) && ValidAnswers(id, ans)
    ensures ToTheEnd(p, s, t, id, ans, run) && |run| <= StepsLeft(At(s, t))
    decreases StepsLeft(At(s, t))
  {
    run := [];
    if !At(s, t).Idle? {
      var a := Move(At(s, t), t, ans);
      MoveProgress(p, s, t, id, ans);
      var rest := Completes(p, Next(p, s, a), t, id, ans);
      run := [a] + rest;
      assert run[1..] == rest;
    }
  }

  /**
   Whatever the answers, a thread that starts a call while the lock is free can bring
   it to its end alone, in at most ten steps, and that is the sequential call.
   */
  lemma CallCompletes(p: Settings, s: State, t: Thread, id: ModelIdentifier, timeout: real, ans: Answers)
    requires ValidSettings(p) && Reachable(p, s) && At(s, t).Idle?
    requires s.writer.None? && s.readers == {} && ValidAnswers(id, ans)
    ensures exists run ::
      && |run| <= 10 && (forall a: Action :: a in run ==> a.t == t && Answered(a, id, ans))
      && Feasible(p, s, run) && At(After(p, s, run), t).Idle?
      && After(p, s, run).m == Fetch(s.m, id, p.max, timeout, ans).0
  {
    Safety(p, s);
    var start := Call(t, id);
    LockStep(p, s, start);
    var rest := Completes(p, Next(p, s, start), t, id, ans);
    CallRefinesFetch(p, s, t, id, timeout, ans, rest);
    ToTheEndIsIdle(p, Next(p, s, start), t, id, ans, rest);
    var run := [start] + rest;
    assert run[1..] == rest;
  }

  lemma {:induction false} ToTheEndIsIdle(p: Settings, s: State, t: Thread, id: ModelIdentifier, ans: Answers,
                                          run: seq<Action>)
    requires ToTheEnd(p, s, t, id, ans, run)
    ensures Feasible(p, s, run) && At(After(p, s, run), t).Idle?
    ensures forall a: Action :: a in run ==> a.t == t && Answered(a, id, ans)
    decreases |run|
  {
    if run != [] {
      ToTheEndIsIdle(p, Next(p, s, run[0]), t, id, ans, run[1..]);
      assert forall a :: a in run ==> a == run[0] || a in run[1..];
    }
  }

  /** There is no deadlock: while some call is not at its end, some call can take a step. */
  lemma NoDeadlock(p: Settings, s: State, t: Thread)
    requires ValidSettings(p) && Reachable(p, s) && !At(s, t).Idle?
    ensures exists a: Action :: Enabled(s, a) && !At(s, a.t).Idle?
  {
    Safety(p, s);
    var u := t;
    if s.writer.Some? {
      u := s.writer.value;
    } else if s.readers != {} {
      u :| u in s.readers;
    }
    var a := Move(At(s, u), u, Answers(false, StatusError, None, None, false, _ => StatusError));
    assert Enabled(s, a) && a.t == u;
  }

  /** A thread that has found its model goes on to reload it exactly when TF Serving's response calls for it. */
  lemma StatusDecides(p: Settings, s: State, t: Thread, response: Option<seq<int>>)
    requires At(s, t).Checking?
    ensures var s' := Next(p, s, Status(t, GetModelStatus(response)));
      && s'.m == s.m
      && (if response.None? || response.value == [] || response.value[0] == 40 || response.value[0] == 50
          then At(s', t) == AwaitReload(At(s, t).model, At(s, t).mark) else At(s', t).Idle?)
  {
    ReloadDecision(response);
  }
}

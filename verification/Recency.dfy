/**
 The recency order of everything ever used, and the cache as its most recent part.
 A use is a `Get` that hits or a `Put`; a history lists uses, oldest first.
 */
module Recency {
  import Int64
  import opened LruState
  import opened Models
  import opened Sequences

  /** Every identifier of the history once, most recently used first. */
  function Stack(h: seq<ModelIdentifier>): seq<ModelIdentifier> {
    if h == [] then []
    else var last := h[|h| - 1]; [last] + Without(Stack(h[..|h| - 1]), last)
  }

  lemma StackOfUse(h: seq<ModelIdentifier>, id: ModelIdentifier)
    ensures Stack(h + [id]) == [id] + Without(Stack(h), id)
  {
    assert (h + [id])[..|h|] == h;
  }

  /** The time of the last use of `id`. */
  function LastUse(h: seq<ModelIdentifier>, id: ModelIdentifier): (i: nat)
    requires id in h
    ensures i < |h| && h[i] == id
  {
    if h[|h| - 1] == id then |h| - 1 else LastUse(h[..|h| - 1], id)
  }

  lemma {:induction false} LastUseIsLast(h: seq<ModelIdentifier>, k: nat)
    requires k < |h|
    ensures k <= LastUse(h, h[k])
  {
    if h[|h| - 1] != h[k] {
      LastUseIsLast(h[..|h| - 1], k);
    }
  }

  lemma {:induction false} StackMembers(h: seq<ModelIdentifier>)
    ensures forall id :: id in Stack(h) <==> id in h
    ensures Distinct(Stack(h))
  {
    if h != [] {
      var n := |h| - 1;
      assert h == h[..n] + [h[n]];
      StackMembers(h[..n]);
      WithoutDistinct(Stack(h[..n]), h[n]);
      assert Stack(h)[1..] == Without(Stack(h[..n]), h[n]);
    }
  }

  /** `s` lists members of the history by strictly decreasing last use. */
  ghost predicate ByLastUse(s: seq<ModelIdentifier>, h: seq<ModelIdentifier>) {
    s == [] || (&& s[0] in h
                && (forall y :: y in s[1..] ==> y in h && LastUse(h, s[0]) > LastUse(h, y))
                && ByLastUse(s[1..], h))
  }

  lemma {:induction false} ByLastUseAt(s: seq<ModelIdentifier>, h: seq<ModelIdentifier>, i: nat, j: nat)
    requires ByLastUse(s, h) && i < j < |s|
    ensures s[i] in h && s[j] in h && LastUse(h, s[i]) > LastUse(h, s[j])
  {
    if i == 0 {
      assert s[1..][j - 1] == s[j];
    } else {
      ByLastUseAt(s[1..], h, i - 1, j - 1);
    }
  }

  /** Taking out `x`, and appending its next use to the history, changes no order among the others. */
  lemma {:induction false} WithoutByLastUse(s: seq<ModelIdentifier>, h: seq<ModelIdentifier>, x: ModelIdentifier)
    requires ByLastUse(s, h)
    ensures ByLastUse(Without(s, x), h + [x])
  {
    if s != [] {
      var r := Without(s[1..], x);
      WithoutByLastUse(s[1..], h, x);
      if s[0] != x {
        assert (h + [x])[..|h|] == h;
        assert ([s[0]] + r)[1..] == r;
      }
    }
  }

  /** The stack is sorted by last use. */
  lemma {:induction false} StackByLastUse(h: seq<ModelIdentifier>)
    ensures ByLastUse(Stack(h), h)
  {
    if h != [] {
      var n := |h| - 1;
      assert h == h[..n] + [h[n]];
      StackMembers(h[..n]);
      StackByLastUse(h[..n]);
      WithoutByLastUse(Stack(h[..n]), h[..n], h[n]);
      assert Stack(h)[1..] == Without(Stack(h[..n]), h[n]);
    }
  }

  /** The distinct identifiers other than `id` used from time `mark` on. */
  function OthersSince(h: seq<ModelIdentifier>, mark: nat, id: ModelIdentifier): set<ModelIdentifier>
    requires mark <= |h|
  {
    set x | x in h[mark..] && x != id
  }

  lemma InSuffix(h: seq<ModelIdentifier>, mark: nat, k: nat)
    requires mark <= k < |h|
    ensures h[k] in h[mark..]
  {
    assert h[mark..][k - mark] == h[k];
  }

  lemma SuffixPlace(h: seq<ModelIdentifier>, mark: nat, x: ModelIdentifier) returns (k: nat)
    requires mark <= |h| && x in h[mark..]
    ensures mark <= k < |h| && h[k] == x
  {
    var i :| 0 <= i < |h| - mark && h[mark..][i] == x;
    k := mark + i;
  }

  lemma StackPlace(h: seq<ModelIdentifier>, x: ModelIdentifier) returns (i: nat)
    requires x in h
    ensures i < |Stack(h)| && Stack(h)[i] == x
  {
    StackMembers(h);
    assert x in Stack(h);
    i :| 0 <= i < |Stack(h)| && Stack(h)[i] == x;
  }

  /** The distinct identifiers used after the last use of `id`. */
  function UsedAfter(h: seq<ModelIdentifier>, id: ModelIdentifier): set<ModelIdentifier>
    requires id in h
  {
    OthersSince(h, LastUse(h, id) + 1, id)
  }

  /** What lies above `id` in the stack was used after it. */
  lemma AboveUsedLater(h: seq<ModelIdentifier>, i: nat, j: nat, id: ModelIdentifier)
    requires i < j < |Stack(h)| && Stack(h)[j] == id && id in h
    ensures Stack(h)[i] in UsedAfter(h, id)
  {
    StackByLastUse(h);
    ByLastUseAt(Stack(h), h, i, j);
    var use, later := LastUse(h, id), LastUse(h, Stack(h)[i]);
    InSuffix(h, use + 1, later);
  }

  lemma MoreRecentAbove(h: seq<ModelIdentifier>, i: nat, j: nat)
    requires i < |Stack(h)| && j < |Stack(h)| && Stack(h)[i] in h && Stack(h)[j] in h
    requires LastUse(h, Stack(h)[i]) > LastUse(h, Stack(h)[j])
    ensures i < j
  {
    StackByLastUse(h);
    if i > j { ByLastUseAt(Stack(h), h, j, i); }
  }

  /** What was used after `id` lies above it in the stack. */
  lemma UsedLaterAbove(h: seq<ModelIdentifier>, j: nat, id: ModelIdentifier, x: ModelIdentifier)
    requires j < |Stack(h)| && Stack(h)[j] == id && id in h
    requires x in UsedAfter(h, id)
    ensures x in Stack(h)[..j]
  {
    var k := SuffixPlace(h, LastUse(h, id) + 1, x);
    LastUseIsLast(h, k);
    var i := StackPlace(h, x);
    MoreRecentAbove(h, i, j);
    var above := Stack(h)[..j];
    assert above[i] == x;
  }

  /** The place of `id` in the stack is the number of distinct others used after it. */
  lemma StackDepth(h: seq<ModelIdentifier>, j: nat, id: ModelIdentifier)
    requires j < |Stack(h)| && Stack(h)[j] == id
    ensures id in h && j == |UsedAfter(h, id)|
  {
    StackMembers(h);
    DistinctTake(Stack(h), j);
    assert Stack(h)[j] in Stack(h);
    var above := Stack(h)[..j];
    forall i | 0 <= i < j
      ensures above[i] in UsedAfter(h, id)
    {
      AboveUsedLater(h, i, j, id);
    }
    forall x | x in UsedAfter(h, id)
      ensures x in above
    {
      UsedLaterAbove(h, j, id, x);
    }
    DistinctSize(above, UsedAfter(h, id));
  }

  /** The later one starts counting, the fewer others there are. */
  lemma FewerOthers(h: seq<ModelIdentifier>, mark: nat, later: nat, id: ModelIdentifier)
    requires mark <= later <= |h|
    ensures OthersSince(h, later, id) <= OthersSince(h, mark, id)
    ensures |OthersSince(h, later, id)| <= |OthersSince(h, mark, id)|
  {
    assert h[mark..] == h[mark..later] + h[later..];
    SubsetSize(OthersSince(h, later, id), OthersSince(h, mark, id));
  }

  lemma {:induction false} SubsetSize(a: set<ModelIdentifier>, b: set<ModelIdentifier>)
    requires a <= b
    ensures |a| <= |b|
  {
    assert b == a + (b - a);
  }

  /** Counted from any use of `id`, the number of others bounds its place. */
  lemma DepthBound(h: seq<ModelIdentifier>, mark: nat, j: nat, id: ModelIdentifier)
    requires j < |Stack(h)| && Stack(h)[j] == id
    requires 0 < mark <= |h| && h[mark - 1] == id
    ensures id in h && j == |UsedAfter(h, id)| <= |OthersSince(h, mark, id)|
  {
    StackDepth(h, j, id);
    LastUseIsLast(h, mark - 1);
    FewerOthers(h, mark, LastUse(h, id) + 1, id);
  }

  /*
   * Refinement: the resident list is the top of the stack
   */

  ghost predicate TopOfStack(c: CacheState, h: seq<ModelIdentifier>) {
    Ids(c.list) <= Stack(h)
  }

  datatype Op =
    | OpGet(id: ModelIdentifier)
    | OpPut(model: Model)
    | OpEnsureFree(bytes: int)

  ghost predicate ValidOp(op: Op) {
    op.OpPut? ==> 0 <= op.model.sizeOnDisk <= Int64.MAX
  }

  function Apply(c: CacheState, op: Op): CacheState {
    match op
    case OpGet(id) => Get(c, id)
    case OpPut(model) => Put(c, model.identifier, model)
    case OpEnsureFree(bytes) => EnsureFree(c, bytes)
  }

  function Uses(c: CacheState, op: Op): seq<ModelIdentifier> {
    match op
    case OpGet(id) => if id in c.index then [id] else []
    case OpPut(model) => [model.identifier]
    case OpEnsureFree(_) => []
  }

  lemma TouchTop(c: CacheState, h: seq<ModelIdentifier>, id: ModelIdentifier)
    requires WellFormed(c) && TopOfStack(c, h) && id in c.index
    ensures WellFormed(MoveToFront(c, c.index[id]))
    ensures TopOfStack(MoveToFront(c, c.index[id]), h + [id])
  {
    var i := ResidentAt(c, id);
    MoveToFrontKeeps(c, c.index[id]);
    WithoutPrefix(Ids(c.list), Stack(h), id);
    StackOfUse(h, id);
    ConsPrefix(id, Without(Ids(c.list), id), Without(Stack(h), id));
  }

  lemma InsertTop(c: CacheState, h: seq<ModelIdentifier>, model: Model)
    requires WellFormed(c) && TopOfStack(c, h) && model.identifier !in c.index
    ensures TopOfStack(Put(c, model.identifier, model), h + [model.identifier])
  {
    var id, d := model.identifier, EnsureFree(c, model.sizeOnDisk);
    EnsureFreeTop(c, model.sizeOnDisk, h);
    EnsureFreeKeeps(c, model.sizeOnDisk);
    ResidentIds(d, id);
    WithoutAbsent(Ids(d.list), id);
    WithoutPrefix(Ids(d.list), Stack(h), id);
    StackOfUse(h, id);
    ConsPrefix(id, Ids(d.list), Without(Stack(h), id));
    IdsConcat([model], d.list);
  }

  /** One operation keeps the invariant and keeps the list on top of the stack. */
  lemma ApplyTop(c: CacheState, op: Op, h: seq<ModelIdentifier>)
    requires WellFormed(c) && ValidOp(op) && TopOfStack(c, h)
    ensures WellFormed(Apply(c, op)) && Apply(c, op).capacity == c.capacity
    ensures TopOfStack(Apply(c, op), h + Uses(c, op))
  {
    assert h + [] == h;
    match op
    case OpGet(id) =>
      if id in c.index { TouchTop(c, h, id); }
    case OpPut(model) =>
      var id := model.identifier;
      PutKeeps(c, id, model);
      if id in c.index {
        TouchTop(c, h, id);
      } else {
        InsertTop(c, h, model);
      }
    case OpEnsureFree(bytes) =>
      EnsureFreeKeeps(c, bytes);
      EnsureFreeTop(c, bytes, h);
  }

  lemma EnsureFreeTop(c: CacheState, bytes: int, h: seq<ModelIdentifier>)
    requires WellFormed(c) && TopOfStack(c, h)
    ensures TopOfStack(EnsureFree(c, bytes), h)
  {
    EnsureFreeKeeps(c, bytes);
    IdsPrefix(c.list, |EnsureFree(c, bytes).list|);
  }

  function Run(c: CacheState, ops: seq<Op>): CacheState
    decreases |ops|
  {
    if ops == [] then c else Run(Apply(c, ops[0]), ops[1..])
  }

  function History(c: CacheState, ops: seq<Op>): seq<ModelIdentifier>
    decreases |ops|
  {
    if ops == [] then [] else Uses(c, ops[0]) + History(Apply(c, ops[0]), ops[1..])
  }

  lemma {:induction false} RunTop(c: CacheState, ops: seq<Op>, h: seq<ModelIdentifier>)
    requires WellFormed(c) && TopOfStack(c, h)
    requires forall op :: op in ops ==> ValidOp(op)
    ensures WellFormed(Run(c, ops))
    ensures TopOfStack(Run(c, ops), h + History(c, ops))
    decreases |ops|
  {
    if ops == [] {
      assert h + [] == h;
    } else {
      var next, first := Apply(c, ops[0]), Uses(c, ops[0]);
      ApplyTop(c, ops[0], h);
      RunTop(next, ops[1..], h + first);
      ConcatAssociative(h, first, History(next, ops[1..]));
    }
  }

  /** On a list that is the top of the stack, every kept identifier was used after every one that is gone. */
  lemma KeptAreMoreRecent(c: CacheState, h: seq<ModelIdentifier>, kept: ModelIdentifier, gone: ModelIdentifier)
    requires WellFormed(c) && TopOfStack(c, h)
    requires kept in c.index && gone in h && gone !in c.index
    ensures kept in h && LastUse(h, kept) > LastUse(h, gone)
  {
    StackMembers(h);
    StackByLastUse(h);
    var i := ResidentAt(c, kept);
    assert Stack(h)[i] == kept;
    var j :| 0 <= j < |Stack(h)| && Stack(h)[j] == gone;
    ResidentIds(c, gone);
    assert j >= |c.list|;
    ByLastUseAt(Stack(h), h, i, j);
  }

  /** Any run from the empty cache evicts only what was used less recently than all it keeps. */
  lemma RunEvictsLeastRecent(capacity: int, ops: seq<Op>, kept: ModelIdentifier, gone: ModelIdentifier)
    requires 0 <= capacity <= Int64.MAX && forall op :: op in ops ==> ValidOp(op)
    requires kept in Run(Empty(capacity), ops).index
    requires gone in History(Empty(capacity), ops) && gone !in Run(Empty(capacity), ops).index
    ensures kept in History(Empty(capacity), ops)
    ensures LastUse(History(Empty(capacity), ops), kept) > LastUse(History(Empty(capacity), ops), gone)
  {
    var h := History(Empty(capacity), ops);
    RunTop(Empty(capacity), ops, []);
    assert [] + h == h;
    KeptAreMoreRecent(Run(Empty(capacity), ops), h, kept, gone);
  }
}

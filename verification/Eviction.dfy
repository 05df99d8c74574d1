/** What the eviction loop keeps, stated without the loop. */
module Eviction {
  import opened LruState
  import opened Models
  import opened Sequences

  /** `k` is the length of the longest prefix of `s` that fits the budget, or 0 if no prefix fits. */
  ghost predicate LongestFit(s: seq<Model>, budget: int, k: nat) {
    && k <= |s|
    && (k == 0 || Total(s[..k]) <= budget)
    && forall j :: k < j <= |s| ==> Total(s[..j]) > budget
  }

  /** A longer list with a larger budget keeps at least as much; so there is only one longest fit. */
  lemma LongestFitMonotone(s: seq<Model>, t: seq<Model>, b: int, c: int, k: nat, l: nat)
    requires s <= t && b <= c
    requires LongestFit(s, b, k) && LongestFit(t, c, l)
    ensures k <= l
    ensures s == t && b == c ==> k == l
  {
    assert t[..k] == s[..k];
  }

  /** Holds whatever the sizes are, negative ones included. */
  lemma {:induction false} ExactEviction(c: CacheState, bytes: int)
    requires c.currentSize == Total(c.list)
    ensures var d := EnsureFree(c, bytes);
      d.list <= c.list && LongestFit(c.list, c.capacity - bytes, |d.list|)
    decreases |c.list|
  {
    var n := |c.list|;
    assert c.list[..n] == c.list;
    if n != 0 && c.capacity - c.currentSize < bytes {
      PopTotal(c);
      ExactEviction(Pop(c), bytes);
      assert forall j :: 0 <= j <= n - 1 ==> Pop(c).list[..j] == c.list[..j];
    }
  }

  lemma {:induction false} PrefixTotals(s: seq<Model>, i: nat, j: nat)
    requires NonNegative(s) && i <= j <= |s|
    ensures Total(s[..i]) <= Total(s[..j])
  {
    assert s[..j] == s[..i] + s[i..j];
    TotalConcat(s[..i], s[i..j]);
    TotalNonNegative(s[i..j]);
  }

  /** A model survives exactly when it and everything used after it leave room for the request. */
  lemma SurvivesEviction(c: CacheState, bytes: int, i: nat)
    requires WellFormed(c) && i < |c.list|
    ensures c.list[i].identifier in EnsureFree(c, bytes).index
       <==> Total(c.list[..i + 1]) <= c.capacity - bytes
  {
    var d, id := EnsureFree(c, bytes), c.list[i].identifier;
    ExactEviction(c, bytes);
    EnsureFreeKeeps(c, bytes);
    if i < |d.list| {
      PrefixTotals(c.list, i + 1, |d.list|);
      assert d.list[i] == c.list[i];
    } else if id in d.index {
      var j := ResidentAt(d, id);
      assert Ids(c.list)[j] == Ids(c.list)[i];
      DistinctAt(Ids(c.list), j, i);
    }
  }

  /** Two requests in a row evict what the larger one alone evicts. */
  lemma {:induction false} EnsureFreeTwice(c: CacheState, a: int, b: int)
    ensures EnsureFree(EnsureFree(c, a), b) == EnsureFree(c, if a >= b then a else b)
    decreases |c.list|
  {
    if c.list != [] && c.capacity - c.currentSize < a {
      EnsureFreeTwice(Pop(c), a, b);
    }
  }

  /**
   Reserving `reserved` bytes for a model that is not resident and then inserting
   it evicts for the larger of the two sizes; so when the provider reports no
   more than it loads, the reservation changes nothing.
   */
  lemma ReserveThenPut(c: CacheState, reserved: int, id: ModelIdentifier, m: Model)
    requires id !in c.index
    ensures Put(EnsureFree(c, reserved), id, m)
         == PushFront(EnsureFree(c, if reserved >= m.sizeOnDisk then reserved else m.sizeOnDisk), id, m)
    ensures reserved <= m.sizeOnDisk ==> Put(EnsureFree(c, reserved), id, m) == Put(c, id, m)
  {
    EnsureFreeShrinks(c, reserved);
    EnsureFreeTwice(c, reserved, m.sizeOnDisk);
  }

  /** A larger cache whose list extends a smaller one's still extends it after eviction. */
  lemma EvictionMonotone(c: CacheState, d: CacheState, bytes: int)
    requires c.currentSize == Total(c.list) && d.currentSize == Total(d.list)
    requires c.list <= d.list && c.capacity <= d.capacity
    ensures EnsureFree(c, bytes).list <= EnsureFree(d, bytes).list
  {
    ExactEviction(c, bytes);
    ExactEviction(d, bytes);
    LongestFitMonotone(c.list, d.list, c.capacity - bytes, d.capacity - bytes,
                       |EnsureFree(c, bytes).list|, |EnsureFree(d, bytes).list|);
  }
}

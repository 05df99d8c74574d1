/** Models, their identifiers, and lists of models ordered from most to least recently used. */
module Models {
  import opened Sequences

  datatype ModelIdentifier = ModelIdentifier(modelName: string, version: int)
  datatype Model = Model(identifier: ModelIdentifier, path: string, sizeOnDisk: int)

  /** `path.Join`. */
  type PathJoin = (string, string) -> string

  function Ids(s: seq<Model>): (ids: seq<ModelIdentifier>)
    ensures |ids| == |s|
    ensures forall i :: 0 <= i < |s| ==> ids[i] == s[i].identifier
    ensures forall m :: m in s ==> m.identifier in ids
  {
    if s == [] then [] else [s[0].identifier] + Ids(s[1..])
  }

  lemma IdsPrefix(s: seq<Model>, k: nat)
    requires k <= |s|
    ensures Ids(s[..k]) == Ids(s)[..k]
  {
  }

  lemma IdsTake(s: seq<Model>, i: nat)
    requires i < |s|
    ensures Ids(s)[..i + 1] == Ids(s)[..i] + [s[i].identifier]
  {
    TakeSnoc(Ids(s), i);
  }

  lemma {:induction false} IdsConcat(a: seq<Model>, b: seq<Model>)
    ensures Ids(a + b) == Ids(a) + Ids(b)
  {
  }

  ghost function Total(s: seq<Model>): int {
    if s == [] then 0 else s[0].sizeOnDisk + Total(s[1..])
  }

  ghost predicate NonNegative(s: seq<Model>) {
    forall m :: m in s ==> 0 <= m.sizeOnDisk
  }

  /** `s` without the models identified by `id`. */
  function Drop(s: seq<Model>, id: ModelIdentifier): (r: seq<Model>)
    ensures forall m :: m in r <==> m in s && m.identifier != id
  {
    if s == [] then []
    else if s[0].identifier == id then Drop(s[1..], id)
    else [s[0]] + Drop(s[1..], id)
  }

  lemma {:induction false} TotalConcat(a: seq<Model>, b: seq<Model>)
    ensures Total(a + b) == Total(a) + Total(b)
  {
    if a == [] {
      assert a + b == b;
    } else {
      assert (a + b)[1..] == a[1..] + b;
      TotalConcat(a[1..], b);
    }
  }

  lemma {:induction false} TotalNonNegative(s: seq<Model>)
    requires NonNegative(s)
    ensures 0 <= Total(s)
  {
    if s != [] {
      TotalNonNegative(s[1..]);
    }
  }

  lemma {:induction false} DropIds(s: seq<Model>, id: ModelIdentifier)
    ensures Ids(Drop(s, id)) == Without(Ids(s), id)
  {
    if s == [] {
      assert Ids(s) == [];
    } else {
      assert Ids(s)[1..] == Ids(s[1..]);
      DropIds(s[1..], id);
      if s[0].identifier != id {
        assert Ids([s[0]] + Drop(s[1..], id)) == [s[0].identifier] + Ids(Drop(s[1..], id));
      }
    }
  }

  lemma {:induction false} DropAbsent(s: seq<Model>, id: ModelIdentifier)
    requires id !in Ids(s)
    ensures Drop(s, id) == s
  {
    if s != [] {
      assert s[0].identifier == Ids(s)[0];
      assert Ids(s)[1..] == Ids(s[1..]);
      DropAbsent(s[1..], id);
    }
  }

  /** In a list without repeated identifiers, taking out a member takes its size out of the total. */
  lemma {:induction false} DropTotal(s: seq<Model>, m: Model)
    requires Distinct(Ids(s)) && m in s
    ensures Total(s) == m.sizeOnDisk + Total(Drop(s, m.identifier))
    ensures |Drop(s, m.identifier)| == |s| - 1
  {
    assert Ids(s)[1..] == Ids(s[1..]);
    if s[0] == m {
      DropAbsent(s[1..], m.identifier);
    } else {
      assert m in s[1..];
      DropTotal(s[1..], m);
    }
  }
}

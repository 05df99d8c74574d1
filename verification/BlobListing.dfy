/**
 The Azure model provider: one paging loop over the blobs of a model, run once to
 measure the model and once to download it.
 */
module BlobListing {
  import Int64
  import opened Decimal
  import opened Eviction
  import opened FetchModel
  import opened LruState
  import opened Models
  import opened Sequences
  import opened Wrappers

  datatype Blob = Blob(name: string, contentLength: int)

  /** What each call for a further segment answers; the last one carries no next marker. */
  type Pages = pages: seq<Option<seq<Blob>>> | pages != [] witness [None]

  function BasePart(baseDir: string): string {
    if baseDir == "" then "" else baseDir + "/"
  }

  /** The part of the prefix that is the model's own. */
  function ModelPart(id: ModelIdentifier): string {
    id.modelName + "/" + FormatInt(id.version) + "/"
  }

  function KeyPrefix(baseDir: string, id: ModelIdentifier): string {
    BasePart(baseDir) + ModelPart(id)
  }

  /** `strings.TrimPrefix`. */
  function TrimPrefix(s: string, prefix: string): string {
    if prefix <= s then s[|prefix|..] else s
  }

  predicate IsFolder(prefix: string, b: Blob) {
    var relative := TrimPrefix(b.name, prefix);
    relative != "" && relative[|relative| - 1] == '/'
  }

  ghost predicate EndsInSlash(s: string) {
    exists stem :: s == stem + ['/']
  }

  /** A folder is any blob whose name ends in a slash, apart from the prefix itself. */
  lemma FolderExactly(prefix: string, b: Blob)
    ensures IsFolder(prefix, b) <==> b.name != prefix && EndsInSlash(b.name)
  {
    var name, relative := b.name, TrimPrefix(b.name, prefix);
    if prefix <= name {
      assert name == prefix + relative;
    }
    if name != [] && name[|name| - 1] == '/' {
      assert name == name[..|name| - 1] + ['/'];
    }
  }

  /** Below the prefix, the last character decides. */
  lemma FolderBelow(prefix: string, rest: string, c: char, length: int)
    ensures IsFolder(prefix, Blob(prefix + (rest + [c]), length)) <==> c == '/'
    ensures !IsFolder(prefix, Blob(prefix, length))
  {
    assert (prefix + (rest + [c]))[|prefix|..] == rest + [c];
  }

  type Filter = Blob -> bool

  function IsFile(prefix: string): Filter {
    b => !IsFolder(prefix, b)
  }

  /** The blobs that the filter lets through, in order. */
  function Files(isFile: Filter, blobs: seq<Blob>): seq<Blob> {
    if blobs == [] then []
    else if isFile(blobs[0]) then [blobs[0]] + Files(isFile, blobs[1..])
    else Files(isFile, blobs[1..])
  }

  /** The whole listing, when every call succeeds. */
  function Listing(pages: seq<Option<seq<Blob>>>): seq<Blob> {
    if pages == [] then []
    else (if pages[0].Some? then pages[0].value else []) + Listing(pages[1..])
  }

  lemma {:induction false} ListingEmpty(pages: seq<Option<seq<Blob>>>)
    ensures Listing(pages) != [] <==> exists i :: 0 <= i < |pages| && pages[i].Some? && pages[i].value != []
  {
    if pages != [] {
      ListingEmpty(pages[1..]);
      if i :| 0 <= i < |pages| && pages[i].Some? && pages[i].value != [] {
        assert i > 0 ==> pages[1..][i - 1] == pages[i];
      }
      if i :| 0 <= i < |pages[1..]| && pages[1..][i].Some? && pages[1..][i].value != [] {
        assert pages[i + 1] == pages[1..][i];
      }
    }
  }

  /** The sum of the lengths. */
  function Sum(blobs: seq<Blob>): int {
    if blobs == [] then 0 else Sum(blobs[..|blobs| - 1]) + blobs[|blobs| - 1].contentLength
  }

  lemma {:induction false} SumConcat(a: seq<Blob>, b: Blob, c: seq<Blob>)
    ensures Sum(a + [b] + c) == Sum(a) + b.contentLength + Sum(c)
  {
    var s := a + [b] + c;
    if c == [] {
      assert s == a + [b] && s[..|s| - 1] == a;
    } else {
      assert s[..|s| - 1] == a + [b] + c[..|c| - 1];
      SumConcat(a, b, c[..|c| - 1]);
    }
  }

  lemma {:induction false} SumNonNegative(blobs: seq<Blob>)
    requires forall b :: b in blobs ==> b.contentLength >= 0
    ensures Sum(blobs) >= 0
  {
    if blobs != [] {
      SumNonNegative(blobs[..|blobs| - 1]);
    }
  }

  /** What adding up the lengths in machine arithmetic comes to: their sum, as long as that fits. */
  function SizeOf(blobs: seq<Blob>): (size: int)
    ensures size == Sum(blobs) <==> Int64.InRange(Sum(blobs))
  {
    Int64.Wrap(Sum(blobs))
  }

  type Failing = Blob -> bool


  /** The closures handed to the loop: both add up lengths, and downloading may fail. */
  class Accumulator {
    const fails: Failing
    var totalSize: int
    ghost var applied: seq<Blob>

    constructor (fails: Failing)
      ensures this.fails == fails && totalSize == 0 && applied == []
    {
      this.fails := fails;
      totalSize := 0;
      applied := [];
    }

    ghost predicate Valid()
      reads this
    {
      totalSize == SizeOf(applied)
    }

    method Apply(b: Blob) returns (ok: bool)
      requires Valid()
      modifies this
      ensures Valid()
      ensures ok == !fails(b)
      ensures applied == if ok then old(applied) + [b] else old(applied)
    {
      ok := !fails(b);
      if ok {
        Int64.WrapAgain(Sum(applied), b.contentLength);
        totalSize := Int64.Wrap(totalSize + b.contentLength);
        applied := applied + [b];
        assert applied[..|applied| - 1] == old(applied);
      }
    }
  }

  /** Every listing call succeeds, there is some blob, and no file fails. */
  ghost predicate Succeeds(isFile: Filter, pages: seq<Option<seq<Blob>>>, fails: Failing) {
    && (forall i :: 0 <= i < |pages| ==> pages[i].Some?)
    && Listing(pages) != []
    && forall b :: b in Files(isFile, Listing(pages)) ==> !fails(b)
  }

  lemma {:induction false} FilesConcat(isFile: Filter, a: seq<Blob>, b: seq<Blob>)
    ensures Files(isFile, a + b) == Files(isFile, a) + Files(isFile, b)
  {
    if a == [] {
      assert a + b == b;
    } else {
      assert (a + b)[1..] == a[1..] + b;
      FilesConcat(isFile, a[1..], b);
    }
  }

  lemma NextFile(isFile: Filter, blobs: seq<Blob>, i: nat)
    requires i < |blobs|
    ensures var files := Files(isFile, blobs[..i]);
      Files(isFile, blobs[..i + 1]) == if isFile(blobs[i]) then files + [blobs[i]] else files
  {
    TakeSnoc(blobs, i);
    FilesConcat(isFile, blobs[..i], [blobs[i]]);
  }

  /** Only files are kept, and all of them. */
  lemma {:induction false} FilesMembers(isFile: Filter, blobs: seq<Blob>)
    ensures forall b :: b in Files(isFile, blobs) <==> b in blobs && isFile(b)
  {
    if blobs != [] {
      FilesMembers(isFile, blobs[1..]);
      assert blobs == [blobs[0]] + blobs[1..];
    }
  }

  /** Two tests that agree on every blob keep the same files. */
  lemma {:induction false} SameFiles(isFile: Filter, isFile': Filter, blobs: seq<Blob>)
    requires forall b :: b in blobs ==> isFile(b) == isFile'(b)
    ensures Files(isFile, blobs) == Files(isFile', blobs)
  {
    if blobs != [] {
      SameFiles(isFile, isFile', blobs[1..]);
    }
  }

  lemma {:induction false} FileAmong(isFile: Filter, blobs: seq<Blob>, i: nat)
    requires i < |blobs| && isFile(blobs[i])
    ensures blobs[i] in Files(isFile, blobs)
  {
    if i > 0 {
      FileAmong(isFile, blobs[1..], i - 1);
    }
  }

  lemma {:induction false} ListingSnoc(pages: seq<Option<seq<Blob>>>, items: seq<Blob>)
    ensures Listing(pages + [Some(items)]) == Listing(pages) + items
  {
    if pages == [] {
      assert pages + [Some(items)] == [Some(items)] && [Some(items)][1..] == [];
    } else {
      assert (pages + [Some(items)])[1..] == pages[1..] + [Some(items)];
      ListingSnoc(pages[1..], items);
      ConcatAssociative(if pages[0].Some? then pages[0].value else [], Listing(pages[1..]), items);
    }
  }

  lemma NextSegment(isFile: Filter, pages: seq<Option<seq<Blob>>>, i: nat)
    requires i < |pages| && pages[i].Some?
    ensures Listing(pages[..i + 1]) == Listing(pages[..i]) + pages[i].value
    ensures Files(isFile, Listing(pages[..i + 1]))
         == Files(isFile, Listing(pages[..i])) + Files(isFile, pages[i].value)
  {
    assert pages[..i + 1] == pages[..i] + [Some(pages[i].value)];
    ListingSnoc(pages[..i], pages[i].value);
    FilesConcat(isFile, Listing(pages[..i]), pages[i].value);
  }

  /** A file that fails in one segment is a file of the whole listing. */
  lemma FailingSegment(isFile: Filter, pages: Pages, marker: nat, fails: Failing)
    requires marker < |pages| && pages[marker].Some?
    requires exists b :: b in Files(isFile, pages[marker].value) && fails(b)
    ensures !Succeeds(isFile, pages, fails)
  {
    var before, here, after := Listing(pages[..marker]), pages[marker].value, Listing(pages[marker + 1..]);
    SplitListing(pages, marker);
    FilesConcat(isFile, before, here + after);
    FilesConcat(isFile, here, after);
  }

  lemma {:induction false} SplitListing(pages: seq<Option<seq<Blob>>>, marker: nat)
    requires marker < |pages| && pages[marker].Some?
    ensures Listing(pages) == Listing(pages[..marker]) + (pages[marker].value + Listing(pages[marker + 1..]))
  {
    if marker > 0 {
      SplitListing(pages[1..], marker - 1);
      assert pages[..marker][1..] == pages[1..][..marker - 1];
      assert pages[1..][marker..] == pages[marker + 1..];
    }
  }

  /**
   The paging loop; of the prefix it needs only the test for folders. It succeeds
   exactly when nothing it meets fails, and then the function was applied once to each
   file of the listing, in order, however the listing was cut into segments.
   */
  method ModelObjectApply(isFile: Filter, pages: Pages, acc: Accumulator) returns (ok: bool)
    requires acc.Valid() && acc.applied == []
    modifies acc
    ensures acc.Valid()
    ensures ok <==> Succeeds(isFile, pages, acc.fails)
    ensures ok ==> acc.applied == Files(isFile, Listing(pages))
  {
    var numBlobs := 0;
    var marker := 0;
    assert pages[..0] == [];
    while marker < |pages|
      invariant 0 <= marker <= |pages|
      invariant acc.Valid() && acc.applied == Files(isFile, Listing(pages[..marker]))
      invariant forall i :: 0 <= i < marker ==> pages[i].Some?
      invariant forall b :: b in acc.applied ==> !acc.fails(b)
      invariant numBlobs == |Listing(pages[..marker])|
    {
      if pages[marker].None? {
        return false;
      }
      var items := pages[marker].value;
      NextSegment(isFile, pages, marker);
      numBlobs := numBlobs + |items|;
      ok := ApplyToSegment(isFile, items, acc);
      if !ok {
        FailingSegment(isFile, pages, marker, acc.fails);
        return;
      }
      marker := marker + 1;
    }
    assert pages[..marker] == pages;
    ok := numBlobs != 0;
  }

  /** The inner loop over one segment. */
  method ApplyToSegment(isFile: Filter, items: seq<Blob>, acc: Accumulator) returns (ok: bool)
    requires acc.Valid()
    modifies acc
    ensures acc.Valid()
    ensures ok ==> acc.applied == old(acc.applied) + Files(isFile, items)
    ensures ok <==> forall b :: b in Files(isFile, items) ==> !acc.fails(b)
  {
    var i := 0;
    ghost var before := acc.applied;
    while i < |items|
      invariant 0 <= i <= |items|
      invariant acc.Valid() && acc.applied == before + Files(isFile, items[..i])
      invariant forall b :: b in Files(isFile, items[..i]) ==> !acc.fails(b)
    {
      var b := items[i];
      NextFile(isFile, items, i);
      ConcatAssociative(before, Files(isFile, items[..i]), [b]);
      if isFile(b) {
        ok := acc.Apply(b);
        if !ok {
          FileAmong(isFile, items, i);
          return;
        }
      }
      i := i + 1;
    }
    assert items[..i] == items;
    ok := true;
  }

  /** The files of a model: what is listed for it and is the prefix itself or does not end in a slash. */
  ghost function ModelFiles(prefix: string, pages: Pages): seq<Blob> {
    Files((b: Blob) => b.name == prefix || !EndsInSlash(b.name), Listing(pages))
  }

  lemma ModelFilesApplied(prefix: string, pages: Pages)
    ensures ModelFiles(prefix, pages) == Files(IsFile(prefix), Listing(pages))
    ensures forall b :: b in ModelFiles(prefix, pages) <==>
      b in Listing(pages) && (b.name == prefix || !EndsInSlash(b.name))
  {
    var isFile := (b: Blob) => b.name == prefix || !EndsInSlash(b.name);
    forall b: Blob
      ensures IsFile(prefix)(b) == isFile(b)
    {
      FolderExactly(prefix, b);
    }
    SameFiles(IsFile(prefix), isFile, Listing(pages));
    FilesMembers(isFile, Listing(pages));
  }

  /** Every listing call succeeds, and some blob is found. */
  ghost predicate Found(pages: Pages) {
    && (forall i :: 0 <= i < |pages| ==> pages[i].Some?)
    && exists i :: 0 <= i < |pages| && pages[i].Some? && pages[i].value != []
  }

  method ModelSize(baseDir: string, id: ModelIdentifier, pages: Pages) returns (size: Option<int>)
    ensures size.Some? <==> Found(pages)
    ensures size.Some? ==> size.value == SizeOf(ModelFiles(KeyPrefix(baseDir, id), pages))
  {
    var prefix := KeyPrefix(baseDir, id);
    var acc := new Accumulator(_ => false);
    var ok := ModelObjectApply(IsFile(prefix), pages, acc);
    ListingEmpty(pages);
    ModelFilesApplied(prefix, pages);
    size := if ok then Some(acc.totalSize) else None;
  }

  /** `dirCreated`: whether the destination directory could be made. */
  method LoadModel(baseDir: string, id: ModelIdentifier, join: PathJoin, pages: Pages, dirCreated: bool,
                   fails: Failing)
    returns (model: Option<Model>)
    ensures var files := ModelFiles(KeyPrefix(baseDir, id), pages);
      model.Some? <==> dirCreated && Found(pages) && forall b :: b in files ==> !fails(b)
    ensures model.Some? ==>
      && model.value.identifier == id
      && model.value.path == join(id.modelName, FormatInt(id.version))
      && model.value.sizeOnDisk == SizeOf(ModelFiles(KeyPrefix(baseDir, id), pages))
  {
    if !dirCreated {
      return None;
    }
    var prefix := KeyPrefix(baseDir, id);
    var acc := new Accumulator(fails);
    var ok := ModelObjectApply(IsFile(prefix), pages, acc);
    ListingEmpty(pages);
    ModelFilesApplied(prefix, pages);
    model := if ok then Some(Model(id, join(id.modelName, FormatInt(id.version)), acc.totalSize)) else None;
  }

  /** What this provider loads is what the cache expects of it, when the lengths are none negative and fit. */
  lemma LoadedIsValid(id: ModelIdentifier, prefix: string, pages: Pages, a: Answers)
    requires forall b :: b in Listing(pages) ==> b.contentLength >= 0
    requires Int64.InRange(Sum(ModelFiles(prefix, pages)))
    requires a.load.Some? ==>
      a.load.value.identifier == id && a.load.value.sizeOnDisk == SizeOf(ModelFiles(prefix, pages))
    ensures ValidAnswers(id, a)
  {
    ModelFilesApplied(prefix, pages);
    SumNonNegative(ModelFiles(prefix, pages));
  }

  /**
   Measuring and loading agree on the size, however each listing was paged. So the
   reservation for a model that is not resident costs nothing: the cache ends as by
   insertion alone.
   */
  lemma ReservationIsExact(c: CacheState, id: ModelIdentifier, prefix: string, pages: Pages, pages': Pages,
                           reserved: int, model: Model)
    requires id !in c.index && Listing(pages) == Listing(pages')
    requires reserved == SizeOf(ModelFiles(prefix, pages)) && model.sizeOnDisk == SizeOf(ModelFiles(prefix, pages'))
    ensures reserved == model.sizeOnDisk
    ensures Put(EnsureFree(c, reserved), id, model) == Put(c, id, model)
  {
    ReserveThenPut(c, reserved, id, model);
  }

  /*
   * Which blobs belong to which model
   */

  /** A base directory is set off by a slash; without one there is none. */
  lemma PrefixLayout(baseDir: string, id: ModelIdentifier)
    ensures KeyPrefix("", id) == id.modelName + ['/'] + FormatInt(id.version) + ['/']
    ensures baseDir != "" ==> KeyPrefix(baseDir, id) == baseDir + ['/'] + KeyPrefix("", id)
  {
  }

  ghost predicate Under(baseDir: string, id: ModelIdentifier, blob: string) {
    KeyPrefix(baseDir, id) <= blob
  }

  /** The listing by prefix of one model, `a`, also finds the other's blobs. */
  predicate Nested(a: ModelIdentifier, b: ModelIdentifier) {
    ModelPart(a) <= b.modelName + "/"
  }

  lemma SamePart(a: ModelIdentifier, b: ModelIdentifier)
    requires Int64.InRange(a.version) && Int64.InRange(b.version) && ModelPart(a) == ModelPart(b)
    ensures a == b
  {
    var s, t := FormatInt(a.version), FormatInt(b.version);
    assert ModelPart(a)[..|ModelPart(a)| - 1] == a.modelName + ['/'] + s;
    assert ModelPart(b)[..|ModelPart(b)| - 1] == b.modelName + ['/'] + t;
    assert '/' !in s && '/' !in t;
    LastSeparator(a.modelName, s, b.modelName, t, '/');
    FormatThenParse(a.version);
    FormatThenParse(b.version);
  }

  /** A part that begins another's ends before that one's version does. */
  lemma PartWithin(a: ModelIdentifier, b: ModelIdentifier)
    requires Int64.InRange(a.version) && Int64.InRange(b.version) && a != b
    ensures ModelPart(a) <= ModelPart(b) <==> Nested(a, b)
  {
    var p, q, n := ModelPart(a), ModelPart(b), |b.modelName| + 1;
    assert q[..n] == b.modelName + "/";
    if p <= q && |p| > n {
      var version := FormatInt(b.version);
      assert '/' !in version;
      assert forall k :: n <= k < |q| - 1 ==> q[k] == version[k - n];
      assert q[|p| - 1] == p[|p| - 1] == '/';
      assert p == q;
      SamePart(a, b);
    }
  }

  /**
   Two different models share blobs, that is, some blob name lies under the prefixes
   of both, exactly when the name of one begins with the whole prefix of the other.
   */
  lemma PrefixesOverlap(baseDir: string, a: ModelIdentifier, b: ModelIdentifier)
    requires Int64.InRange(a.version) && Int64.InRange(b.version) && a != b
    ensures (exists blob :: Under(baseDir, a, blob) && Under(baseDir, b, blob)) <==> Nested(a, b) || Nested(b, a)
  {
    var base, p, q := BasePart(baseDir), ModelPart(a), ModelPart(b);
    PartWithin(a, b);
    PartWithin(b, a);
    if blob :| Under(baseDir, a, blob) && Under(baseDir, b, blob) {
      Comparable(base, p, q, blob);
    }
    if p <= q {
      assert base + p <= base + q;
      assert Under(baseDir, a, base + q) && Under(baseDir, b, base + q);
    }
    if q <= p {
      assert base + q <= base + p;
      assert Under(baseDir, a, base + p) && Under(baseDir, b, base + p);
    }
  }

  lemma Comparable(base: string, p: string, q: string, blob: string)
    requires base + p <= blob && base + q <= blob
    ensures p <= q || q <= p
  {
    var rest := blob[|base|..];
    assert p == rest[..|p|] && q == rest[..|q|];
  }

  /** Model names without a slash never overlap. */
  lemma PlainNamesDisjoint(a: ModelIdentifier, b: ModelIdentifier)
    requires '/' !in b.modelName
    ensures !Nested(a, b)
  {
    var p := ModelPart(a);
    assert p[|a.modelName|] == '/' && |a.modelName| < |p| - 1;
    assert forall k :: 0 <= k < |b.modelName| ==> (b.modelName + "/")[k] == b.modelName[k];
  }

  /**
   A name with a slash can: listing version `v` of a model also finds every blob of
   the model named like that version's directory, at any version.
   */
  lemma DirectoryNameOverlaps(name: string, v: int, w: int, baseDir: string, blob: string)
    requires Under(baseDir, ModelIdentifier(name + "/" + FormatInt(v), w), blob)
    ensures Under(baseDir, ModelIdentifier(name, v), blob)
    ensures Nested(ModelIdentifier(name, v), ModelIdentifier(name + "/" + FormatInt(v), w))
  {
    var outer, inner := ModelIdentifier(name, v), ModelIdentifier(name + "/" + FormatInt(v), w);
    assert ModelPart(inner) == ModelPart(outer) + (FormatInt(w) + "/");
    assert KeyPrefix(baseDir, outer) <= KeyPrefix(baseDir, inner);
  }
}

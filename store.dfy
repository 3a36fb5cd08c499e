/**
 * The two MongoDB collections behind the routes, as in-memory sequences of
 * documents in insertion order. Each document carries an `_id` drawn from
 * one counter and a `createdAt` supplied by the caller. The `categories`
 * collection has unique indexes on `name` and `slug`.
 */
module Store {
  import opened Wrappers
  import opened CategoryModel
  import opened ArtworkModel
  import opened Text
  import Seqs

  /** A stored record. */
  datatype Document<T> = Document(id: nat, data: T, createdAt: nat)

  /** MongoDB's error code for a unique-index violation. */
  const DuplicateKeyCode: int := 11000

  /** Why a database call failed. */
  datatype Failure =
    | ValidationError(errors: map<string, string>)  // Mongoose `ValidationError`: failing path -> message
    | MongoError(code: int)                          // a write rejected by the server
    | Unavailable                                    // connection or server failure

  /** The data of each document, in order. */
  function Data<T>(docs: seq<Document<T>>): (r: seq<T>)
    ensures |r| == |docs| && forall i :: 0 <= i < |docs| ==> r[i] == docs[i].data
  {
    seq(|docs|, i requires 0 <= i < |docs| => docs[i].data)
  }

  /** Whether `f` would violate the unique `name` or `slug` index next to `existing`. */
  predicate Clash(existing: seq<CategoryFields>, f: CategoryFields) {
    exists i :: 0 <= i < |existing| && (existing[i].name == f.name || existing[i].slug == f.slug)
  }

  /** No two categories share a name or a slug. */
  predicate UniqueKeys(fs: seq<CategoryFields>) {
    forall i, j :: 0 <= i < j < |fs| ==> fs[i].name != fs[j].name && fs[i].slug != fs[j].slug
  }

  /** Consecutive documents with ids from `id` on, all created at `now`. */
  function Stamp<T>(batch: seq<T>, id: nat, now: nat): (r: seq<Document<T>>)
    ensures |r| == |batch|
    ensures Data(r) == batch
    ensures forall i :: 0 <= i < |r| ==> r[i].id == id + i && r[i].createdAt == now
  {
    seq(|batch|, i requires 0 <= i < |batch| => Document(id + i, batch[i], now))
  }

  /**
   * How many documents of an ordered bulk insert reach the collection: the
   * server stops at the first one that clashes with what is stored by then.
   */
  function Admitted(existing: seq<CategoryFields>, batch: seq<CategoryFields>): (n: nat)
    ensures n <= |batch|
    decreases |batch|
  {
    if batch == [] || Clash(existing, batch[0]) then 0
    else 1 + Admitted(existing + [batch[0]], batch[1..])
  }

  /** Skipping the first document of a batch that got in. */
  lemma AdmittedTail(existing: seq<CategoryFields>, batch: seq<CategoryFields>, k: nat)
    requires 0 < k < |batch|
    ensures existing + [batch[0]] + batch[1..][..k - 1] == existing + batch[..k]
    ensures batch[1..][k - 1] == batch[k]
  {
    assert batch[..k] == [batch[0]] + batch[1..][..k - 1];
  }

  /**
   * `Admitted` is the index of the first document that clashes with the
   * stored ones or with those of the batch before it, or the whole batch.
   */
  lemma {:induction false} AdmittedIsFirstClash(existing: seq<CategoryFields>, batch: seq<CategoryFields>, k: nat)
    requires k <= |batch|
    ensures k < Admitted(existing, batch) ==> !Clash(existing + batch[..k], batch[k])
    ensures k == Admitted(existing, batch) && k < |batch| ==> Clash(existing + batch[..k], batch[k])
    decreases |batch|
  {
    if k == 0 {
      assert existing + batch[..0] == existing;
    } else if batch != [] && !Clash(existing, batch[0]) {
      AdmittedIsFirstClash(existing + [batch[0]], batch[1..], k - 1);
      if k < |batch| {
        AdmittedTail(existing, batch, k);
      }
    }
  }

  /** What validating each input of a batch gives, in order. */
  function Validations(inputs: seq<CategoryInput>): (r: seq<Result<CategoryFields, map<string, string>>>)
    ensures |r| == |inputs| && forall k :: 0 <= k < |inputs| ==> r[k] == CategoryModel.Validate(inputs[k])
  {
    seq(|inputs|, k requires 0 <= k < |inputs| => CategoryModel.Validate(inputs[k]))
  }

  /** The position of the first failure from `i` on, if any. */
  function FirstFailure<T, E>(results: seq<Result<T, E>>, i: nat): (r: Option<nat>)
    requires i <= |results|
    ensures r.Some? ==> i <= r.value < |results| && results[r.value].Failure?
    ensures r.Some? ==> forall k :: i <= k < r.value ==> results[k].Success?
    ensures r.None? <==> forall k :: i <= k < |results| ==> results[k].Success?
    decreases |results| - i
  {
    if i == |results| then None
    else if results[i].Failure? then Some(i)
    else FirstFailure(results, i + 1)
  }

  /** The values of a sequence of successes. */
  function Values<T, E>(results: seq<Result<T, E>>): (r: seq<T>)
    requires forall k :: 0 <= k < |results| ==> results[k].Success?
    ensures |r| == |results| && forall k :: 0 <= k < |results| ==> r[k] == results[k].value
  {
    seq(|results|, k requires 0 <= k < |results| && results[k].Success? => results[k].value)
  }

  /** A batch of successes has no failure, and its values are what the successes carry. */
  lemma AllSucceed<T, E>(results: seq<Result<T, E>>, values: seq<T>)
    requires |results| == |values| && forall k :: 0 <= k < |results| ==> results[k] == Success(values[k])
    ensures FirstFailure(results, 0).None?
    ensures Values(results) == values
  {
  }

  /**
   * The first category with the given name, as `findOne({ name })` returns
   * it. The query value goes through the path's setters before the match,
   * so it is compared trimmed.
   */
  function FindByName(docs: seq<Document<CategoryFields>>, name: string): (r: Option<Document<CategoryFields>>)
    ensures r.Some? <==> exists i :: 0 <= i < |docs| && docs[i].data.name == Trim(name)
    ensures r.Some? ==> r.value.data.name == Trim(name) && exists i :: 0 <= i < |docs| && docs[i] == r.value
  {
    if docs == [] then None
    else if docs[0].data.name == Trim(name) then Some(docs[0])
    else
      var r := FindByName(docs[1..], name);
      assert forall i :: 0 <= i < |docs[1..]| ==> docs[1..][i] == docs[i + 1];
      r
  }

  /** `sort({ name: 1 })`: by the code points of the name. */
  predicate ByName(a: Document<CategoryFields>, b: Document<CategoryFields>) {
    LexLe(a.data.name, b.data.name)
  }

  lemma ByNameOrders()
    ensures Seqs.Total(ByName) && Seqs.Transitive(ByName)
  {
    forall a: Document<CategoryFields>, b: Document<CategoryFields> ensures ByName(a, b) || ByName(b, a) {
      LexLeTotal(a.data.name, b.data.name);
    }
    forall a: Document<CategoryFields>, b: Document<CategoryFields>, c: Document<CategoryFields> | ByName(a, b) && ByName(b, c)
      ensures ByName(a, c)
    {
      LexLeTransitive(a.data.name, b.data.name, c.data.name);
    }
  }

  /** `Category.find().sort({ name: 1 })` on the given documents. */
  function SortedByName(docs: seq<Document<CategoryFields>>): (r: seq<Document<CategoryFields>>)
    ensures Seqs.Sorted(r, ByName)
    ensures multiset(r) == multiset(docs)
  {
    ByNameOrders();
    Seqs.SortBy(docs, ByName)
  }

  /**
   * Names are unique in the collection, so no two documents tie and the
   * sorted result is the only arrangement by name: storage order does not show.
   */
  lemma SortedByNameUnique(docs: seq<Document<CategoryFields>>, other: seq<Document<CategoryFields>>)
    requires UniqueKeys(Data(docs))
    requires Seqs.Sorted(other, ByName) && multiset(other) == multiset(docs)
    ensures other == SortedByName(docs)
  {
    var r := SortedByName(docs);
    forall x, y | x in r && y in r && ByName(x, y) && ByName(y, x) ensures x == y {
      assert x in multiset(r) && y in multiset(r);
      LexLeAntisymmetric(x.data.name, y.data.name);
      NameIdentifies(docs, x, y);
    }
    Seqs.SortedUnique(r, other, ByName);
  }

  /** With unique names, a name picks out one document. */
  lemma NameIdentifies(docs: seq<Document<CategoryFields>>, x: Document<CategoryFields>, y: Document<CategoryFields>)
    requires UniqueKeys(Data(docs))
    requires x in multiset(docs) && y in multiset(docs) && x.data.name == y.data.name
    ensures x == y
  {
    var i :| 0 <= i < |docs| && docs[i] == x;
    var j :| 0 <= j < |docs| && docs[j] == y;
    assert Data(docs)[i].name == Data(docs)[j].name;
  }

  class Database {
    var categories: seq<Document<CategoryFields>>
    var artworks: seq<Document<ArtworkFields>>
    /** The next `_id` to hand out. */
    var nextId: nat
    /** Whether the server answers; when it does not, every call fails. */
    var reachable: bool

    /**
     * Every id is below the counter and used once per collection, every
     * category is as validation leaves it, and the unique indexes hold.
     */
    predicate Valid()
      reads this
    {
      (forall i :: 0 <= i < |categories| ==> categories[i].id < nextId && WellFormed(categories[i].data)) &&
      (forall i :: 0 <= i < |artworks| ==> artworks[i].id < nextId) &&
      (forall i, j :: 0 <= i < j < |categories| ==> categories[i].id != categories[j].id) &&
      (forall i, j :: 0 <= i < j < |artworks| ==> artworks[i].id != artworks[j].id) &&
      UniqueKeys(Data(categories))
    }

    /** An empty database. */
    constructor (reachable: bool)
      ensures Valid()
      ensures categories == [] && artworks == [] && nextId == 0 && this.reachable == reachable
    {
      categories := [];
      artworks := [];
      nextId := 0;
      this.reachable := reachable;
    }

    /** `Category.find()`: all categories, in storage order. */
    method FindCategories() returns (r: Result<seq<Document<CategoryFields>>, Failure>)
      ensures r == if reachable then Success(categories) else Failure(Unavailable)
    {
      if !reachable {
        return Failure(Unavailable);
      }
      r := Success(categories);
    }

    /** `Category.findOne({ name })`. */
    method FindCategoryByName(name: string) returns (r: Result<Option<Document<CategoryFields>>, Failure>)
      ensures r == if reachable then Success(FindByName(categories, name)) else Failure(Unavailable)
    {
      if !reachable {
        return Failure(Unavailable);
      }
      r := Success(FindByName(categories, name));
    }

    /** `Artwork.find()`: all artworks, in storage order. */
    method FindArtworks() returns (r: Result<seq<Document<ArtworkFields>>, Failure>)
      ensures r == if reachable then Success(artworks) else Failure(Unavailable)
    {
      if !reachable {
        return Failure(Unavailable);
      }
      r := Success(artworks);
    }

    /** Inserts a validated category unless it clashes with a stored one on name or slug. */
    method InsertValidated(f: CategoryFields, now: nat) returns (r: Result<Document<CategoryFields>, Failure>)
      requires Valid() && WellFormed(f)
      modifies this
      ensures Valid()
      ensures artworks == old(artworks) && reachable == old(reachable)
      ensures Clash(Data(old(categories)), f) ==>
        r == Failure(MongoError(DuplicateKeyCode)) && categories == old(categories) && nextId == old(nextId)
      ensures !Clash(Data(old(categories)), f) ==>
        r == Success(Document(old(nextId), f, now)) && categories == old(categories) + [r.value] && nextId == old(nextId) + 1
    {
      if Clash(Data(categories), f) {
        return Failure(MongoError(DuplicateKeyCode));
      }
      var doc := Document(nextId, f, now);
      assert Data(categories + [doc]) == Data(categories) + [f];
      categories := categories + [doc];
      nextId := nextId + 1;
      r := Success(doc);
    }

    /**
     * `Category.create(data)`: validation first, then the insert, which the
     * unique indexes may reject. Artworks never change.
     */
    method CreateCategory(input: CategoryInput, now: nat) returns (r: Result<Document<CategoryFields>, Failure>)
      requires Valid()
      modifies this
      ensures Valid()
      ensures artworks == old(artworks) && reachable == old(reachable)
      ensures !old(reachable) ==> r == Failure(Unavailable) && categories == old(categories) && nextId == old(nextId)
      ensures old(reachable) && CategoryModel.Validate(input).Failure? ==>
        r == Failure(ValidationError(CategoryModel.Validate(input).error)) && categories == old(categories) && nextId == old(nextId)
      ensures old(reachable) && CategoryModel.Validate(input).Success? && Clash(Data(old(categories)), CategoryModel.Validate(input).value) ==>
        r == Failure(MongoError(DuplicateKeyCode)) && categories == old(categories) && nextId == old(nextId)
      ensures old(reachable) && CategoryModel.Validate(input).Success? && !Clash(Data(old(categories)), CategoryModel.Validate(input).value) ==>
        r == Success(Document(old(nextId), CategoryModel.Validate(input).value, now)) &&
        categories == old(categories) + [r.value] && nextId == old(nextId) + 1
    {
      if !reachable {
        return Failure(Unavailable);
      }
      var v := CategoryModel.Validate(input);
      if v.Failure? {
        return Failure(ValidationError(v.error));
      }
      ValidateWellFormed(input);
      r := InsertValidated(v.value, now);
    }

    /**
     * `Category.insertMany(inputs)` with the default `ordered: true`: every
     * input is validated first and any failure aborts the whole call; then
     * the documents go in one by one until the first that violates a unique
     * index, and those before it stay.
     */
    method InsertCategories(inputs: seq<CategoryInput>, now: nat) returns (r: Result<seq<Document<CategoryFields>>, Failure>)
      requires Valid()
      modifies this
      ensures Valid()
      ensures artworks == old(artworks) && reachable == old(reachable)
      ensures !old(reachable) ==> r == Failure(Unavailable) && categories == old(categories) && nextId == old(nextId)
      ensures old(reachable) && FirstFailure(Validations(inputs), 0).Some? ==>
        r == Failure(ValidationError(Validations(inputs)[FirstFailure(Validations(inputs), 0).value].error)) &&
        categories == old(categories) && nextId == old(nextId)
      ensures old(reachable) && FirstFailure(Validations(inputs), 0).None? ==>
        var batch := Values(Validations(inputs));
        var n := Admitted(Data(old(categories)), batch);
        categories == old(categories) + Stamp(batch[..n], old(nextId), now) && nextId == old(nextId) + n &&
        r == if n == |batch| then Success(Stamp(batch, old(nextId), now)) else Failure(MongoError(DuplicateKeyCode))
    {
      if !reachable {
        return Failure(Unavailable);
      }
      var results := Validations(inputs);
      var bad := FirstFailure(results, 0);
      if bad.Some? {
        return Failure(ValidationError(results[bad.value].error));
      }
      var batch := Values(results);
      forall k | 0 <= k < |batch| ensures WellFormed(batch[k]) {
        ValidateWellFormed(inputs[k]);
      }
      r := InsertBatch(batch, now);
    }

    /** The insert phase of `insertMany`: in order, stopping at the first clash. */
    method InsertBatch(batch: seq<CategoryFields>, now: nat) returns (r: Result<seq<Document<CategoryFields>>, Failure>)
      requires Valid()
      requires forall k :: 0 <= k < |batch| ==> WellFormed(batch[k])
      modifies this
      ensures Valid()
      ensures artworks == old(artworks) && reachable == old(reachable)
      ensures var n := Admitted(Data(old(categories)), batch);
        categories == old(categories) + Stamp(batch[..n], old(nextId), now) && nextId == old(nextId) + n &&
        r == if n == |batch| then Success(Stamp(batch, old(nextId), now)) else Failure(MongoError(DuplicateKeyCode))
    {
      ghost var before := categories;
      var id0 := nextId;
      var i := 0;
      while i < |batch|
        invariant 0 <= i <= |batch|
        invariant Valid() && artworks == old(artworks) && reachable == old(reachable)
        invariant categories == before + Stamp(batch[..i], id0, now) && nextId == id0 + i
        invariant Data(categories) == Data(before) + batch[..i]
        invariant i <= Admitted(Data(before), batch)
      {
        var ok := InsertNext(before, batch, i, id0, now);
        if !ok {
          return Failure(MongoError(DuplicateKeyCode));
        }
        i := i + 1;
      }
      assert batch[..i] == batch;
      r := Success(Stamp(batch, id0, now));
    }

    /**
     * One document of the insert phase: the `i`-th of the batch goes in
     * after the ones before it, or it clashes and the phase stops there.
     */
    method InsertNext(ghost before: seq<Document<CategoryFields>>, batch: seq<CategoryFields>, i: nat, id0: nat, now: nat)
      returns (ok: bool)
      requires Valid() && i < |batch| && WellFormed(batch[i])
      requires categories == before + Stamp(batch[..i], id0, now) && nextId == id0 + i
      requires Data(categories) == Data(before) + batch[..i] && i <= Admitted(Data(before), batch)
      modifies this
      ensures Valid() && artworks == old(artworks) && reachable == old(reachable)
      ensures !ok ==> Admitted(Data(before), batch) == i && categories == old(categories) && nextId == old(nextId)
      ensures ok ==> (categories == before + Stamp(batch[..i + 1], id0, now) && nextId == id0 + i + 1 &&
                      Data(categories) == Data(before) + batch[..i + 1] && i + 1 <= Admitted(Data(before), batch))
    {
      ghost var current := categories;
      var step := InsertValidated(batch[i], now);
      if step.Failure? {
        AdmittedStops(Data(before), batch, i);
        return false;
      }
      AdmittedContinues(Data(before), batch, i);
      BatchStep(before, batch, i, id0, now, current);
      ok := true;
    }

    /** `Category.deleteMany({})`: the categories go, the artworks and their category ids stay. */
    method DeleteAllCategories() returns (ok: bool)
      requires Valid()
      modifies this
      ensures Valid()
      ensures ok == old(reachable)
      ensures categories == (if ok then [] else old(categories))
      ensures artworks == old(artworks) && nextId == old(nextId) && reachable == old(reachable)
    {
      if !reachable {
        return false;
      }
      categories := [];
      ok := true;
    }

    /** `Artwork.create(data)`: validation, then an insert no index can reject. */
    method CreateArtwork(input: ArtworkInput, now: nat) returns (r: Result<Document<ArtworkFields>, Failure>)
      requires Valid()
      modifies this
      ensures Valid()
      ensures categories == old(categories) && reachable == old(reachable)
      ensures !old(reachable) ==> r == Failure(Unavailable) && artworks == old(artworks) && nextId == old(nextId)
      ensures old(reachable) && ArtworkModel.Validate(input).Failure? ==>
        r == Failure(ValidationError(Keyed(ArtworkModel.Validate(input).error))) && artworks == old(artworks) && nextId == old(nextId)
      ensures old(reachable) && ArtworkModel.Validate(input).Success? ==>
        r == Success(Document(old(nextId), ArtworkModel.Validate(input).value, now)) &&
        artworks == old(artworks) + [r.value] && nextId == old(nextId) + 1
    {
      if !reachable {
        return Failure(Unavailable);
      }
      var v := ArtworkModel.Validate(input);
      if v.Failure? {
        return Failure(ValidationError(Keyed(v.error)));
      }
      var doc := Document(nextId, v.value, now);
      artworks := artworks + [doc];
      nextId := nextId + 1;
      r := Success(doc);
    }
  }

  lemma {:induction false} AdmittedStops(existing: seq<CategoryFields>, batch: seq<CategoryFields>, i: nat)
    requires i <= Admitted(existing, batch) && i < |batch|
    requires Clash(existing + batch[..i], batch[i])
    ensures Admitted(existing, batch) == i
    decreases i
  {
    if i == 0 {
      assert existing + batch[..0] == existing;
    } else {
      AdmittedTail(existing, batch, i);
      AdmittedStops(existing + [batch[0]], batch[1..], i - 1);
    }
  }

  lemma {:induction false} AdmittedContinues(existing: seq<CategoryFields>, batch: seq<CategoryFields>, i: nat)
    requires i <= Admitted(existing, batch) && i < |batch|
    requires !Clash(existing + batch[..i], batch[i])
    ensures i + 1 <= Admitted(existing, batch)
    decreases i
  {
    if i == 0 {
      assert existing + batch[..0] == existing;
    } else {
      AdmittedTail(existing, batch, i);
      AdmittedContinues(existing + [batch[0]], batch[1..], i - 1);
    }
  }

  lemma DataConcat<T>(a: seq<Document<T>>, b: seq<Document<T>>)
    ensures Data(a + b) == Data(a) + Data(b)
  {
  }

  /** One more document of the batch, stored after the ones before it. */
  lemma BatchStep(before: seq<Document<CategoryFields>>, batch: seq<CategoryFields>, i: nat, id0: nat, now: nat,
                  current: seq<Document<CategoryFields>>)
    requires i < |batch| && current == before + Stamp(batch[..i], id0, now)
    ensures current + [Document(id0 + i, batch[i], now)] == before + Stamp(batch[..i + 1], id0, now)
    ensures Data(current + [Document(id0 + i, batch[i], now)]) == Data(before) + batch[..i + 1]
  {
    StampExtend(batch, i, id0, now);
    Seqs.ConcatAssoc(before, Stamp(batch[..i], id0, now), [Document(id0 + i, batch[i], now)]);
    DataConcat(before, Stamp(batch[..i + 1], id0, now));
  }

  lemma StampExtend<T>(batch: seq<T>, i: nat, id: nat, now: nat)
    requires i < |batch|
    ensures Stamp(batch[..i + 1], id, now) == Stamp(batch[..i], id, now) + [Document(id + i, batch[i], now)]
  {
  }

  /**
   * A batch whose names and slugs are pairwise distinct and clash with
   * nothing stored goes in whole.
   */
  lemma {:induction false} AdmittedAll(existing: seq<CategoryFields>, batch: seq<CategoryFields>)
    requires UniqueKeys(batch)
    requires forall k :: 0 <= k < |batch| ==> !Clash(existing, batch[k])
    ensures Admitted(existing, batch) == |batch|
    decreases |batch|
  {
    if batch != [] {
      assert !Clash(existing, batch[0]);
      var next := existing + [batch[0]];
      forall k | 0 <= k < |batch[1..]| ensures !Clash(next, batch[1..][k]) {
        assert !Clash(existing, batch[k + 1]);
        assert batch[0].name != batch[k + 1].name && batch[0].slug != batch[k + 1].slug;
      }
      assert UniqueKeys(batch[1..]) by {
        forall i, j | 0 <= i < j < |batch[1..]| ensures batch[1..][i].name != batch[1..][j].name && batch[1..][i].slug != batch[1..][j].slug {
          assert batch[1..][i] == batch[i + 1] && batch[1..][j] == batch[j + 1];
        }
      }
      AdmittedAll(next, batch[1..]);
    }
  }
}

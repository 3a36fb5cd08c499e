/**
 * `GET /api/categories` lists every category by `order`, then `name`;
 * `POST /api/categories` creates one and turns each kind of failure into
 * a status.
 */
module CategoriesRoute {
  import opened Wrappers
  import opened Text
  import Seqs
  import opened CategoryModel
  import opened Store
  import opened Http

  const ListFailed := "Ошибка при получении категорий"
  const DuplicateName := "Категория с таким названием уже существует"
  const CreateFailed := "Ошибка при создании категории"

  /** `sort({ order: 1, name: 1 })`: by order, ties broken by the code points of the name. */
  predicate ByOrderThenName(a: Document<CategoryFields>, b: Document<CategoryFields>) {
    a.data.order < b.data.order || (a.data.order == b.data.order && LexLe(a.data.name, b.data.name))
  }

  /** The comparison is a total preorder, so sorting by it is well defined. */
  lemma ByOrderThenNameOrders()
    ensures Seqs.Total(ByOrderThenName) && Seqs.Transitive(ByOrderThenName)
  {
    forall a: Document<CategoryFields>, b: Document<CategoryFields> ensures ByOrderThenName(a, b) || ByOrderThenName(b, a) {
      LexLeTotal(a.data.name, b.data.name);
    }
    forall a: Document<CategoryFields>, b: Document<CategoryFields>, c: Document<CategoryFields> | ByOrderThenName(a, b) && ByOrderThenName(b, c)
      ensures ByOrderThenName(a, c)
    {
      if a.data.order == b.data.order == c.data.order {
        LexLeTransitive(a.data.name, b.data.name, c.data.name);
      }
    }
  }

  /** The listing `GET` returns for the given store. */
  function Listing(categories: seq<Document<CategoryFields>>): (r: seq<Document<CategoryFields>>)
    ensures Seqs.Sorted(r, ByOrderThenName)
    ensures multiset(r) == multiset(categories)
  {
    ByOrderThenNameOrders();
    Seqs.SortBy(categories, ByOrderThenName)
  }

  /**
   * With unique names no two stored categories tie, so the listing is the
   * only sorted arrangement of the store: storage order does not show.
   */
  lemma ListingUnique(categories: seq<Document<CategoryFields>>, other: seq<Document<CategoryFields>>)
    requires UniqueKeys(Data(categories))
    requires Seqs.Sorted(other, ByOrderThenName) && multiset(other) == multiset(categories)
    ensures other == Listing(categories)
  {
    var r := Listing(categories);
    forall x, y | x in r && y in r && ByOrderThenName(x, y) && ByOrderThenName(y, x) ensures x == y {
      assert x in multiset(categories) && y in multiset(categories);
      var i :| 0 <= i < |categories| && categories[i] == x;
      var j :| 0 <= j < |categories| && categories[j] == y;
      LexLeAntisymmetric(x.data.name, y.data.name);
      assert Data(categories)[i].name == Data(categories)[j].name;
    }
    Seqs.SortedUnique(r, other, ByOrderThenName);
  }

  /**
   * When every category has order 0, as the seeded ones do, the listing is
   * the listing by name alone.
   */
  lemma OrderZeroListsByName(categories: seq<Document<CategoryFields>>)
    requires UniqueKeys(Data(categories))
    requires forall i :: 0 <= i < |categories| ==> categories[i].data.order == 0
    ensures Listing(categories) == SortedByName(categories)
  {
    var r := Listing(categories);
    forall i, j | 0 <= i < j < |r| ensures ByName(r[i], r[j]) {
      assert r[i] in multiset(categories) && r[j] in multiset(categories);
      assert r[i].data.order == 0 && r[j].data.order == 0;
    }
    SortedByNameUnique(categories, r);
  }

  /** `GET /api/categories`: reads only. */
  method Get(db: Database) returns (resp: Response)
    ensures db.reachable ==> resp == Response(Ok, CategoryList(Listing(db.categories)))
    ensures !db.reachable ==> resp == Response(ServerError, ErrorBody(ListFailed))
  {
    var found := db.FindCategories();
    if found.Failure? {
      return Response(ServerError, ErrorBody(ListFailed));
    }
    resp := Response(Ok, CategoryList(Listing(found.value)));
  }

  /**
   * `POST /api/categories`. `body` is `None` when the request body is not
   * JSON. The error branches are tried in the source's order: a Mongoose
   * validation error, then code 11000, then everything else.
   */
  method Post(db: Database, body: Option<CategoryInput>, now: nat) returns (resp: Response)
    requires db.Valid()
    modifies db
    ensures db.Valid()
    ensures db.artworks == old(db.artworks) && db.reachable == old(db.reachable)
    ensures resp.status == Created ==> resp.body.CategoryDoc? && db.categories == old(db.categories) + [resp.body.category]
    ensures resp.status != Created ==> db.categories == old(db.categories) && db.nextId == old(db.nextId)
    ensures (body.None? || !old(db.reachable)) ==> resp == Response(ServerError, ErrorBody(CreateFailed))
    ensures body.Some? && old(db.reachable) ==>
      var v := CategoryModel.Validate(body.value);
      (v.Failure? ==> resp == Response(BadRequest, ValidationBody(ValidationFailed, v.error))) &&
      (v.Success? && Clash(Data(old(db.categories)), v.value) ==> resp == Response(BadRequest, ErrorBody(DuplicateName))) &&
      (v.Success? && !Clash(Data(old(db.categories)), v.value) ==>
        resp == Response(Created, CategoryDoc(Document(old(db.nextId), v.value, now))))
  {
    if body.None? {
      return Response(ServerError, ErrorBody(CreateFailed));
    }
    var created := db.CreateCategory(body.value, now);
    if created.Success? {
      resp := Response(Created, CategoryDoc(created.value));
    } else if created.error.ValidationError? {
      var validationErrors := CollectValidationErrors(created.error.errors);
      resp := Response(BadRequest, ValidationBody(ValidationFailed, validationErrors));
    } else if created.error == MongoError(DuplicateKeyCode) {
      resp := Response(BadRequest, ErrorBody(DuplicateName));
    } else {
      resp := Response(ServerError, ErrorBody(CreateFailed));
    }
  }

  /**
   * Two names that differ only in case or in dropped characters give one
   * slug (`SlugIgnoresCase`, `SlugIgnoresDropped`), so once "Брендинг" is
   * stored a request for "Брендинг!" clashes on the unique slug and
   * `Post` answers with the duplicate message.
   */
  lemma SlugCollisionIsDuplicate(stored: seq<Document<CategoryFields>>, input: CategoryInput, i: nat)
    requires CategoryModel.Validate(input).Success?
    requires i < |stored| && stored[i].data.slug == Slug(Trim(input.name.value))
    ensures Clash(Data(stored), CategoryModel.Validate(input).value)
  {
    assert Data(stored)[i].slug == CategoryModel.Validate(input).value.slug;
  }
}

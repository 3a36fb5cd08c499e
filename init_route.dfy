/**
 * `GET /api/init`: seeds the fourteen default categories when the
 * collection is empty and otherwise reports what is there.
 */
module InitRoute {
  import opened Wrappers
  import opened Text
  import opened CategoryModel
  import opened Store
  import opened Http
  import opened Seeds
  import Seqs

  const SeededMessage := "Базовые категории успешно созданы"
  const ExistingMessage := "Категории уже существуют"
  const InitFailed := "Ошибка при инициализации категорий"

  /** The request `insertMany(defaultCategories)` sends. */
  function DefaultInputs(): (r: seq<CategoryInput>)
    ensures |r| == DefaultCount && forall k :: 0 <= k < DefaultCount ==> r[k] == SeedInput(Default(k))
  {
    seq(DefaultCount, k requires 0 <= k < DefaultCount => SeedInput(Default(k)))
  }

  /** What a seed's document holds: its name, its trimmed description, the slug of its name, order 0. */
  function SeedFields(seed: CategorySeed): CategoryFields {
    CategoryFields(seed.name, Some(Trim(seed.description)), Slug(seed.name), 0)
  }

  /** What the seeded categories hold, in the order of `defaultCategories`. */
  function DefaultFields(): (r: seq<CategoryFields>)
    ensures |r| == DefaultCount && forall k :: 0 <= k < DefaultCount ==> r[k] == SeedFields(Default(k))
  {
    seq(DefaultCount, k requires 0 <= k < DefaultCount => SeedFields(Default(k)))
  }

  /** Each default validates to its own fields. */
  lemma DefaultValidates(k: nat)
    requires k < DefaultCount
    ensures CategoryModel.Validate(DefaultInputs()[k]) == Success(DefaultFields()[k])
  {
    DefaultSeedable(k);
    SeedValidates(Default(k));
  }

  /** No two defaults share a slug, hence none share a name either. */
  lemma DefaultsUnique()
    ensures UniqueKeys(DefaultFields())
  {
    var f := DefaultFields();
    forall i, j | 0 <= i < j < |f| ensures f[i].name != f[j].name && f[i].slug != f[j].slug {
      DefaultTag(i);
      DefaultTag(j);
    }
  }

  /** What validating the defaults gives: a success carrying each default's fields. */
  function DefaultResults(): (r: seq<Result<CategoryFields, map<string, string>>>)
    ensures |r| == DefaultCount && forall k :: 0 <= k < DefaultCount ==> r[k] == Success(DefaultFields()[k])
  {
    seq(DefaultCount, k requires 0 <= k < DefaultCount => Success(DefaultFields()[k]))
  }

  /** All fourteen defaults validate, to exactly `DefaultFields()`. */
  lemma DefaultsValidate()
    ensures Validations(DefaultInputs()) == DefaultResults()
  {
    var results := Validations(DefaultInputs());
    forall k | 0 <= k < DefaultCount ensures results[k] == DefaultResults()[k] {
      DefaultValidates(k);
    }
  }

  /** So none of them fails, and the batch `insertMany` goes on to insert is `DefaultFields()`. */
  lemma DefaultResultsPass()
    ensures FirstFailure(DefaultResults(), 0).None?
    ensures Values(DefaultResults()) == DefaultFields()
  {
    AllSucceed(DefaultResults(), DefaultFields());
  }

  /** Seeding an empty collection stores all fourteen defaults: none is rejected as a duplicate. */
  lemma DefaultsAllAdmitted()
    ensures Admitted([], DefaultFields()) == DefaultCount
  {
    DefaultsUnique();
    AdmittedAll([], DefaultFields());
  }

  /**
   * `insertMany(defaultCategories)` on an empty collection: every default
   * validates and none clashes with another, so all fourteen are stored.
   */
  method InsertDefaults(db: Database, now: nat) returns (inserted: Result<seq<Document<CategoryFields>>, Failure>)
    requires db.Valid() && db.reachable && db.categories == []
    modifies db
    ensures db.Valid() && db.artworks == old(db.artworks) && db.reachable == old(db.reachable)
    ensures inserted == Success(Stamp(DefaultFields(), old(db.nextId), now))
    ensures db.categories == Stamp(DefaultFields(), old(db.nextId), now) && db.nextId == old(db.nextId) + DefaultCount
  {
    DefaultsValidate();
    DefaultResultsPass();
    DefaultsAllAdmitted();
    ghost var batch := DefaultFields();
    assert Data(db.categories) == [];
    inserted := db.InsertCategories(DefaultInputs(), now);
    Seqs.PrefixAll(batch);
  }

  /** `GET /api/init`. */
  method Get(db: Database, now: nat) returns (resp: Response)
    requires db.Valid()
    modifies db
    ensures db.Valid()
    ensures db.artworks == old(db.artworks) && db.reachable == old(db.reachable)
    ensures !old(db.reachable) ==>
      resp == Response(ServerError, ErrorBody(InitFailed)) && db.categories == old(db.categories) && db.nextId == old(db.nextId)
    ensures old(db.reachable) && old(db.categories) != [] ==>
      resp == Response(Ok, CategoryReport(ExistingMessage, old(db.categories))) &&
      db.categories == old(db.categories) && db.nextId == old(db.nextId)
    ensures old(db.reachable) && old(db.categories) == [] ==>
      resp == Response(Ok, SeedReport(SeededMessage, DefaultCategories())) &&
      db.categories == Stamp(DefaultFields(), old(db.nextId), now) && db.nextId == old(db.nextId) + DefaultCount
  {
    var existing := db.FindCategories();
    if existing.Failure? {
      return Response(ServerError, ErrorBody(InitFailed));
    }
    if |existing.value| == 0 {
      var inserted := InsertDefaults(db, now);
      resp := if inserted.Success? then Response(Ok, SeedReport(SeededMessage, DefaultCategories()))
        else Response(ServerError, ErrorBody(InitFailed));
      return;
    }
    resp := Response(Ok, CategoryReport(ExistingMessage, existing.value));
  }
}

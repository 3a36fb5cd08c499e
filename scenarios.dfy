/**
 * Requests in sequence against one store: what the maintenance routes
 * promise about each other.
 */
module Scenarios {
  import opened Text
  import opened CategoryModel
  import opened Store
  import opened Http
  import opened Seeds
  import InitRoute
  import AddNewRoute
  import AddNewLoop
  import ResetRoute
  import CheckRoute
  import CategoriesRoute

  /** Once `add-new` has gone through, running it again finds every name and adds nothing. */
  lemma AddNewTwice(stored: seq<CategoryFields>)
    requires AddNewLoop.Added(stored, NewCategories()).complete
    ensures AddNewLoop.Added(stored + AddNewLoop.Added(stored, NewCategories()).added, NewCategories()) ==
      AddNewLoop.Outcome([], true)
  {
    AddNewLoop.AddNewIdempotent(stored, NewCategories());
  }

  /** Reset, then init: the store holds exactly the fourteen defaults. */
  method ResetThenInit(db: Database, now: nat) returns (resp: Response)
    requires db.Valid() && db.reachable
    modifies db
    ensures db.Valid() && db.artworks == old(db.artworks)
    ensures Data(db.categories) == InitRoute.DefaultFields() && |db.categories| == DefaultCount
    ensures resp == Response(Ok, SeedReport(InitRoute.SeededMessage, DefaultCategories()))
  {
    var _ := ResetRoute.Post(db);
    resp := InitRoute.Get(db, now);
  }

  /** A second init changes nothing, whatever the first one did. */
  method InitTwice(db: Database, now: nat, later: nat) returns (resp: Response)
    requires db.Valid() && db.reachable
    modifies db
    ensures db.Valid() && db.artworks == old(db.artworks)
    ensures old(db.categories) != [] ==> db.categories == old(db.categories) && db.nextId == old(db.nextId)
    ensures old(db.categories) == [] ==>
      db.categories == Stamp(InitRoute.DefaultFields(), old(db.nextId), now) && db.nextId == old(db.nextId) + DefaultCount
    ensures db.categories != [] && resp == Response(Ok, CategoryReport(InitRoute.ExistingMessage, db.categories))
  {
    ghost var before := db.categories;
    var _ := InitRoute.Get(db, now);
    ghost var afterFirst := db.categories;
    if before == [] {
      assert |afterFirst| == |InitRoute.DefaultFields()| == DefaultCount;
    }
    resp := InitRoute.Get(db, later);
    assert db.categories == afterFirst;
  }

  /** A second reset answers as the first did and leaves the store as the first left it. */
  method ResetTwice(db: Database) returns (first: Response, second: Response)
    requires db.Valid()
    modifies db
    ensures db.Valid() && db.artworks == old(db.artworks) && db.nextId == old(db.nextId)
    ensures second == first
    ensures db.categories == if old(db.reachable) then [] else old(db.categories)
  {
    first := ResetRoute.Post(db);
    second := ResetRoute.Post(db);
  }

  /** The seeded categories all have order 0, so `GET /api/categories` lists them by name alone. */
  lemma SeededListedByName(id: nat, now: nat)
    ensures CategoriesRoute.Listing(Stamp(InitRoute.DefaultFields(), id, now)) ==
      SortedByName(Stamp(InitRoute.DefaultFields(), id, now))
  {
    var docs := Stamp(InitRoute.DefaultFields(), id, now);
    InitRoute.DefaultsUnique();
    forall i | 0 <= i < |docs| ensures docs[i].data.order == 0 {
      assert docs[i].data == InitRoute.DefaultFields()[i];
    }
    CategoriesRoute.OrderZeroListsByName(docs);
  }

  /** Right after a reset the check counts nothing. */
  method CheckAfterReset(db: Database) returns (resp: Response)
    requires db.Valid() && db.reachable
    modifies db
    ensures db.categories == [] && db.artworks == old(db.artworks)
    ensures resp == Response(Ok, CountReport(0, []))
  {
    var _ := ResetRoute.Post(db);
    resp := CheckRoute.Get(db);
    CheckRoute.EmptyReport();
  }

  /** On a store holding the defaults, `add-new` finds every name it looks for. */
  lemma NothingNewOnDefaults(stored: seq<Document<CategoryFields>>)
    requires Data(stored) == InitRoute.DefaultFields()
    ensures AddNewLoop.Added(Data(stored), NewCategories()) == AddNewLoop.Outcome([], true)
  {
    AddNewRoute.NothingNewAfterInit();
  }

  lemma AppendNothing(stored: seq<Document<CategoryFields>>, id: nat, now: nat)
    ensures stored + Stamp<CategoryFields>([], id, now) == stored
  {
    assert Stamp<CategoryFields>([], id, now) == [];
  }

  /** After seeding, `add-new` leaves the store as it was and lists it by name. */
  method AddNewAfterInit(db: Database, now: nat) returns (resp: Response)
    requires db.Valid() && db.reachable && Data(db.categories) == InitRoute.DefaultFields()
    modifies db
    ensures db.Valid() && db.artworks == old(db.artworks)
    ensures db.categories == old(db.categories) && db.nextId == old(db.nextId)
    ensures resp == Response(Ok, CategoryReport(AddNewRoute.AddedMessage, SortedByName(db.categories)))
  {
    NothingNewOnDefaults(db.categories);
    AppendNothing(db.categories, db.nextId, now);
    resp := AddNewRoute.Post(db, now);
  }
}

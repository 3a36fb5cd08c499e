/**
 * `POST /api/categories/add-new`: runs the add-if-absent loop over four
 * fixed categories and answers with every category sorted by name. A
 * failing `create` ends the request with status 500; the categories
 * created before it stay.
 */
module AddNewRoute {
  import opened Wrappers
  import opened Text
  import opened CategoryModel
  import opened Store
  import opened Http
  import opened Seeds
  import InitRoute
  import opened AddNewLoop

  const AddedMessage := "Новые категории успешно добавлены"
  const AddFailed := "Ошибка при добавлении новых категорий"

  /** After `GET /api/init` has seeded the defaults, the four new categories are all there already. */
  lemma NothingNewAfterInit()
    ensures Added(InitRoute.DefaultFields(), NewCategories()) == Outcome([], true)
  {
    var stored := InitRoute.DefaultFields();
    var seeds := NewCategories();
    forall k | 0 <= k < |seeds| ensures HasName(stored, seeds[k].name) {
      assert seeds[k] == Default(k + 10);
      DefaultTrimmed(k + 10);
      assert stored[k + 10].name == Trim(seeds[k].name);
    }
    AllPresentAddsNothing(stored, seeds);
  }

  /** `POST /api/categories/add-new`. */
  method Post(db: Database, now: nat) returns (resp: Response)
    requires db.Valid()
    modifies db
    ensures db.Valid()
    ensures db.artworks == old(db.artworks) && db.reachable == old(db.reachable)
    ensures !old(db.reachable) ==>
      resp == Response(ServerError, ErrorBody(AddFailed)) && db.categories == old(db.categories) && db.nextId == old(db.nextId)
    ensures old(db.reachable) ==>
      var r := Added(Data(old(db.categories)), NewCategories());
      db.categories == old(db.categories) + Stamp(r.added, old(db.nextId), now) &&
      db.nextId == old(db.nextId) + |r.added| &&
      resp == if r.complete then Response(Ok, CategoryReport(AddedMessage, SortedByName(db.categories)))
        else Response(ServerError, ErrorBody(AddFailed))
  {
    var ok := AddSeeds(db, NewCategories(), now);
    if !ok {
      return Response(ServerError, ErrorBody(AddFailed));
    }
    var all := db.FindCategories();
    if all.Failure? {
      return Response(ServerError, ErrorBody(AddFailed));
    }
    resp := Response(Ok, CategoryReport(AddedMessage, SortedByName(all.value)));
  }
}

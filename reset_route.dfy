/**
 * `POST /api/categories/reset`: `Category.deleteMany({})` and a fixed
 * message.
 */
module ResetRoute {
  import opened CategoryModel
  import opened Store
  import opened Http

  const ResetMessage := "Все категории успешно удалены"
  const ResetFailed := "Ошибка при сбросе категорий"

  /**
   * Every category goes and nothing else changes: the artworks keep their
   * category ids, now dangling. An unreachable store is left as it was.
   */
  method Post(db: Database) returns (resp: Response)
    requires db.Valid()
    modifies db
    ensures db.Valid()
    ensures db.artworks == old(db.artworks) && db.nextId == old(db.nextId) && db.reachable == old(db.reachable)
    ensures old(db.reachable) ==> db.categories == [] && resp == Response(Ok, MessageBody(ResetMessage))
    ensures !old(db.reachable) ==> db.categories == old(db.categories) && resp == Response(ServerError, ErrorBody(ResetFailed))
  {
    var ok := db.DeleteAllCategories();
    if !ok {
      return Response(ServerError, ErrorBody(ResetFailed));
    }
    resp := Response(Ok, MessageBody(ResetMessage));
  }
}

/**
 * `GET /api/categories/check`: how many categories there are, and all of
 * them sorted by name.
 */
module CheckRoute {
  import opened CategoryModel
  import opened Store
  import opened Http

  const CheckFailed := "Ошибка при проверке категорий"

  /** The body of a successful check of the given store. */
  function Report(categories: seq<Document<CategoryFields>>): (r: Json)
    ensures r.CountReport? && r.count == |r.categories| == |categories|
    ensures multiset(r.categories) == multiset(categories)
  {
    var sorted := SortedByName(categories);
    assert |sorted| == |multiset(sorted)| == |multiset(categories)| == |categories|;
    CountReport(|sorted|, sorted)
  }

  /** The check reads only; the count is the length of the list it returns. */
  method Get(db: Database) returns (resp: Response)
    ensures db.reachable ==> resp == Response(Ok, Report(db.categories))
    ensures !db.reachable ==> resp == Response(ServerError, ErrorBody(CheckFailed))
  {
    var found := db.FindCategories();
    if found.Failure? {
      return Response(ServerError, ErrorBody(CheckFailed));
    }
    var sorted := SortedByName(found.value);
    resp := Response(Ok, CountReport(|sorted|, sorted));
  }

  /** The listing holds every stored category, ordered by name, and nothing else. */
  lemma ReportListsAll(categories: seq<Document<CategoryFields>>, d: Document<CategoryFields>)
    ensures Seqs.Sorted(Report(categories).categories, ByName)
    ensures d in Report(categories).categories <==> d in categories
  {
    assert d in multiset(Report(categories).categories) <==> d in multiset(categories);
  }

  /** An empty store is reported as a count of 0 and an empty list. */
  lemma EmptyReport()
    ensures Report([]) == CountReport(0, [])
  {
    assert |Report([]).categories| == 0;
  }
}

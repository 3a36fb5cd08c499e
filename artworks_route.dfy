/**
 * `GET /api/artworks` filters the artworks by category and by the featured
 * flag, orders them newest first and cuts the list to a positive limit;
 * `POST /api/artworks` creates one.
 */
module ArtworksRoute {
  import opened Wrappers
  import opened Text
  import Seqs
  import opened ArtworkModel
  import opened Store
  import opened Http

  const ListFailed := "Ошибка при получении произведений искусства"
  const CreateFailed := "Ошибка при создании произведения искусства"

  /** A query string as its decoded `name=value` pairs, in order. */
  type QueryString = seq<(string, string)>

  /** `searchParams.get(key)`: the value of the first pair with that name. */
  function Param(query: QueryString, key: string): (r: Option<string>)
    ensures r.Some? <==> exists i :: 0 <= i < |query| && query[i].0 == key
    ensures r.Some? ==> exists i :: (0 <= i < |query| && query[i] == (key, r.value) &&
      forall j :: 0 <= j < i ==> query[j].0 != key)
  {
    if query == [] then None
    else if query[0].0 == key then Some(query[0].1)
    else
      var r := Param(query[1..], key);
      assert forall i :: 0 <= i < |query[1..]| ==> query[1..][i] == query[i + 1];
      r
  }

  /** The query the handler builds: the parameters it reads, already interpreted. */
  datatype Filter = Filter(category: Option<string>, featuredOnly: bool, limit: Option<nat>)

  /**
   * `category` is used when non-empty; the featured restriction only for
   * the exact value "true"; the limit only when `parseInt` gives a
   * positive number. No other parameter is read.
   */
  function QueryOf(query: QueryString): Filter {
    var category := Param(query, "category");
    var featured := Param(query, "featured");
    var limitParam := Param(query, "limit");
    var limit := if limitParam.Some? && limitParam.value != "" then ParseInt(limitParam.value) else Some(0);
    Filter(
      if category.Some? && category.value != "" then category else None,
      featured == Some("true"),
      if limit.Some? && limit.value > 0 then Some(limit.value as nat) else None)
  }

  /** `{ categories: category, isFeatured: true }`: array membership and the flag. */
  predicate Matches(filter: Filter, a: Document<ArtworkFields>) {
    (filter.category.Some? ==> filter.category.value in a.data.categories) &&
    (filter.featuredOnly ==> a.data.isFeatured)
  }

  /** `Matches` as the test a `find` applies. */
  function MatchesFilter(filter: Filter): Document<ArtworkFields> -> bool {
    a => Matches(filter, a)
  }

  /** `sort({ createdAt: -1 })`. */
  predicate NewestFirst(a: Document<ArtworkFields>, b: Document<ArtworkFields>) {
    a.createdAt >= b.createdAt
  }

  lemma NewestFirstOrders()
    ensures Seqs.Total(NewestFirst) && Seqs.Transitive(NewestFirst)
  {
  }

  /** The matching artworks, newest first, before any limit. */
  function Matching(filter: Filter, artworks: seq<Document<ArtworkFields>>): (r: seq<Document<ArtworkFields>>)
    ensures Seqs.Sorted(r, NewestFirst)
    ensures multiset(r) == multiset(Seqs.Filter(artworks, MatchesFilter(filter)))
  {
    NewestFirstOrders();
    Seqs.SortBy(Seqs.Filter(artworks, MatchesFilter(filter)), NewestFirst)
  }

  /** The artworks `find(query).sort(...).limit(...)` returns. */
  function Select(filter: Filter, artworks: seq<Document<ArtworkFields>>): seq<Document<ArtworkFields>> {
    var sorted := Matching(filter, artworks);
    if filter.limit.Some? then Seqs.Take(sorted, filter.limit.value) else sorted
  }

  /** A limit keeps a prefix of the matching list; no limit keeps all of it. */
  lemma SelectIsPrefix(filter: Filter, artworks: seq<Document<ArtworkFields>>)
    ensures var r := Select(filter, artworks); var m := Matching(filter, artworks);
      r == m[..|r|] &&
      |r| == (if filter.limit.Some? && filter.limit.value < |m| then filter.limit.value else |m|)
  {
  }

  /**
   * Every artwork returned is stored and matches the filter: with a
   * `category`, its categories contain that id; with `featured=true`, it
   * is featured.
   */
  lemma SelectSound(filter: Filter, artworks: seq<Document<ArtworkFields>>, i: nat)
    requires i < |Select(filter, artworks)|
    ensures Select(filter, artworks)[i] in artworks
    ensures filter.category.Some? ==> filter.category.value in Select(filter, artworks)[i].data.categories
    ensures filter.featuredOnly ==> Select(filter, artworks)[i].data.isFeatured
  {
    SelectIsPrefix(filter, artworks);
    var m := Matching(filter, artworks);
    var x := Select(filter, artworks)[i];
    assert x == m[i];
    assert x in multiset(Seqs.Filter(artworks, MatchesFilter(filter)));
    assert x in Seqs.Filter(artworks, MatchesFilter(filter));
  }

  /** Without a limit every matching artwork is returned, each as often as it is stored. */
  lemma SelectComplete(filter: Filter, artworks: seq<Document<ArtworkFields>>, x: Document<ArtworkFields>)
    requires filter.limit.None?
    ensures multiset(Select(filter, artworks))[x] == if Matches(filter, x) then multiset(artworks)[x] else 0
  {
    Seqs.FilterMultiset(artworks, MatchesFilter(filter), x);
  }

  /** The result is newest first. */
  lemma SelectNewestFirst(filter: Filter, artworks: seq<Document<ArtworkFields>>)
    ensures Seqs.Sorted(Select(filter, artworks), NewestFirst)
  {
    SelectIsPrefix(filter, artworks);
    var r := Select(filter, artworks);
    var m := Matching(filter, artworks);
    forall i, j | 0 <= i < j < |r| ensures NewestFirst(r[i], r[j]) {
      assert r[i] == m[i] && r[j] == m[j];
    }
  }

  /** The featured restriction applies exactly when the parameter is the string "true". */
  lemma FeaturedOnlyWhenTrue(query: QueryString)
    ensures QueryOf(query).featuredOnly <==> Param(query, "featured") == Some("true")
  {
  }

  /** The limit applies exactly when the parameter is present, non-empty and parses to a positive number. */
  lemma LimitOnlyWhenPositive(query: QueryString)
    ensures QueryOf(query).limit.Some? <==>
      var p := Param(query, "limit");
      p.Some? && p.value != "" && ParseInt(p.value).Some? && ParseInt(p.value).value > 0
    ensures QueryOf(query).limit.Some? ==> QueryOf(query).limit.value == ParseInt(Param(query, "limit").value).value
  {
  }

  /** A parameter with another name, wherever it stands, does not change what `get` finds. */
  lemma {:induction false} ParamIgnoresOthers(before: QueryString, after: QueryString, name: string, value: string, key: string)
    requires name != key
    ensures Param(before + [(name, value)] + after, key) == Param(before + after, key)
  {
    if before == [] {
      assert before + [(name, value)] + after == [(name, value)] + after;
      assert ([(name, value)] + after)[0].0 == name;
      assert ([(name, value)] + after)[1..] == after;
      assert before + after == after;
    } else {
      ParamIgnoresOthers(before[1..], after, name, value, key);
      assert (before + [(name, value)] + after)[1..] == before[1..] + [(name, value)] + after;
      assert (before + after)[1..] == before[1..] + after;
    }
  }

  /** `search` is never read: adding it anywhere leaves the query unchanged. */
  lemma SearchIgnored(before: QueryString, after: QueryString, term: string)
    ensures QueryOf(before + [("search", term)] + after) == QueryOf(before + after)
  {
    ParamIgnoresOthers(before, after, "search", term, "category");
    ParamIgnoresOthers(before, after, "search", term, "featured");
    ParamIgnoresOthers(before, after, "search", term, "limit");
  }

  /** "0", a negative number and a non-number all return everything. */
  lemma NonPositiveLimitsIgnored(d: string)
    requires AllDigits(d)
    ensures QueryOf([("limit", "0")]).limit.None?
    ensures QueryOf([("limit", "-" + d)]).limit.None?
    ensures QueryOf([("limit", "all")]).limit.None?
  {
    ParseIntDigits("0");
    ParseIntNegative(d);
    ParseIntNaN("all");
  }

  /** A decimal limit cuts the list to that many. */
  lemma DecimalLimit(d: string)
    requires AllDigits(d) && DigitsValue(d, 10) > 0
    ensures QueryOf([("limit", d)]).limit == Some(DigitsValue(d, 10))
  {
    ParseIntDigits(d);
  }

  /**
   * Artworks stored in creation order that all match come back in reverse
   * when there is no limit.
   */
  lemma NewestFirstReverses(filter: Filter, artworks: seq<Document<ArtworkFields>>)
    requires forall i, j :: 0 <= i < j < |artworks| ==> artworks[i].createdAt < artworks[j].createdAt
    requires forall i :: 0 <= i < |artworks| ==> Matches(filter, artworks[i])
    requires filter.limit.None?
    ensures Select(filter, artworks) == Seqs.Reverse(artworks)
  {
    var m := Matching(filter, artworks);
    assert multiset(m) == multiset(artworks) by {
      MatchingAll(filter, artworks);
    }
    assert m == Seqs.Reverse(artworks) by {
      OnlyReverseSorted(m, artworks);
    }
  }

  /** When every artwork matches, the matching list holds all of them. */
  lemma MatchingAll(filter: Filter, artworks: seq<Document<ArtworkFields>>)
    requires forall i :: 0 <= i < |artworks| ==> Matches(filter, artworks[i])
    ensures multiset(Matching(filter, artworks)) == multiset(artworks)
  {
    Seqs.FilterAll(artworks, MatchesFilter(filter));
  }

  /** The one newest-first arrangement of artworks stored in creation order is their reverse. */
  lemma OnlyReverseSorted(m: seq<Document<ArtworkFields>>, artworks: seq<Document<ArtworkFields>>)
    requires Seqs.Sorted(m, NewestFirst) && multiset(m) == multiset(artworks)
    requires forall i, j :: 0 <= i < j < |artworks| ==> artworks[i].createdAt < artworks[j].createdAt
    ensures m == Seqs.Reverse(artworks)
  {
    var r := Seqs.Reverse(artworks);
    IncreasingTimesNoTies(m, artworks);
    forall i, j | 0 <= i < j < |r| ensures NewestFirst(r[i], r[j]) {
      assert r[i] == artworks[|artworks| - 1 - i] && r[j] == artworks[|artworks| - 1 - j];
    }
    Seqs.SortedUnique(m, r, NewestFirst);
  }

  /** Artworks created at different times never tie. */
  lemma IncreasingTimesNoTies(m: seq<Document<ArtworkFields>>, s: seq<Document<ArtworkFields>>)
    requires multiset(m) == multiset(s)
    requires forall i, j :: 0 <= i < j < |s| ==> s[i].createdAt < s[j].createdAt
    ensures forall x, y :: x in m && y in m && NewestFirst(x, y) && NewestFirst(y, x) ==> x == y
  {
    forall x, y | x in m && y in m && NewestFirst(x, y) && NewestFirst(y, x) ensures x == y {
      assert x in multiset(s) && y in multiset(s);
      var i :| 0 <= i < |s| && s[i] == x;
      var j :| 0 <= j < |s| && s[j] == y;
      assert s[i].createdAt == s[j].createdAt;
    }
  }

  /** `NewestFirstReverses` with the reverse given element by element. */
  lemma SelectIsBackToFront(filter: Filter, artworks: seq<Document<ArtworkFields>>, t: seq<Document<ArtworkFields>>)
    requires forall i, j :: 0 <= i < j < |artworks| ==> artworks[i].createdAt < artworks[j].createdAt
    requires forall i :: 0 <= i < |artworks| ==> Matches(filter, artworks[i])
    requires filter.limit.None?
    requires |t| == |artworks| && forall i :: 0 <= i < |artworks| ==> t[i] == artworks[|artworks| - 1 - i]
    ensures Select(filter, artworks) == t
  {
    NewestFirstReverses(filter, artworks);
    Seqs.ReverseIs(artworks, t);
  }

  /** Artworks created A, then B, then C come back C, B, A when nothing filters them out. */
  lemma NewestFirstExample(stored: seq<Document<ArtworkFields>>, filter: Filter)
    requires |stored| == 3 && stored[0].createdAt < stored[1].createdAt < stored[2].createdAt
    requires Matches(filter, stored[0]) && Matches(filter, stored[1]) && Matches(filter, stored[2])
    requires filter.limit.None?
    ensures Select(filter, stored) == [stored[2], stored[1], stored[0]]
  {
    SelectIsBackToFront(filter, stored, [stored[2], stored[1], stored[0]]);
  }

  /** `GET /api/artworks`: the query is assembled one restriction at a time; the store is only read. */
  method Get(db: Database, query: QueryString) returns (resp: Response)
    ensures db.reachable ==> resp == Response(Ok, ArtworkList(Select(QueryOf(query), db.artworks)))
    ensures !db.reachable ==> resp == Response(ServerError, ErrorBody(ListFailed))
  {
    var category := Param(query, "category");
    var featured := Param(query, "featured");
    var limitParam := Param(query, "limit");
    var limit := if limitParam.Some? && limitParam.value != "" then ParseInt(limitParam.value) else Some(0);
    var filter := Filter(None, false, None);
    if category.Some? && category.value != "" {
      filter := filter.(category := category);
    }
    if featured == Some("true") {
      filter := filter.(featuredOnly := true);
    }
    if limit.Some? && limit.value > 0 {
      filter := filter.(limit := Some(limit.value as nat));
    }
    var found := db.FindArtworks();
    if found.Failure? {
      return Response(ServerError, ErrorBody(ListFailed));
    }
    resp := Response(Ok, ArtworkList(Select(filter, found.value)));
  }

  /**
   * `POST /api/artworks`: 201 with the new record, 400 with the failing
   * paths, 500 for anything else. There is no duplicate-key branch.
   */
  method Post(db: Database, body: Option<ArtworkInput>, now: nat) returns (resp: Response)
    requires db.Valid()
    modifies db
    ensures db.Valid()
    ensures db.categories == old(db.categories) && db.reachable == old(db.reachable)
    ensures resp.status == Created ==> resp.body.ArtworkDoc? && db.artworks == old(db.artworks) + [resp.body.artwork]
    ensures resp.status != Created ==> db.artworks == old(db.artworks) && db.nextId == old(db.nextId)
    ensures (body.None? || !old(db.reachable)) ==> resp == Response(ServerError, ErrorBody(CreateFailed))
    ensures body.Some? && old(db.reachable) ==>
      var v := ArtworkModel.Validate(body.value);
      (v.Failure? ==> resp == Response(BadRequest, ValidationBody(ValidationFailed, Keyed(v.error)))) &&
      (v.Success? ==> resp == Response(Created, ArtworkDoc(Document(old(db.nextId), v.value, now))))
  {
    if body.None? {
      return Response(ServerError, ErrorBody(CreateFailed));
    }
    var created := db.CreateArtwork(body.value, now);
    if created.Success? {
      resp := Response(Created, ArtworkDoc(created.value));
    } else if created.error.ValidationError? {
      var validationErrors := CollectValidationErrors(created.error.errors);
      resp := Response(BadRequest, ValidationBody(ValidationFailed, validationErrors));
    } else {
      resp := Response(ServerError, ErrorBody(CreateFailed));
    }
  }
}

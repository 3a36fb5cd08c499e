/**
 * The admin list of artworks: the filters it turns into a request to
 * `GET /api/artworks`, the category names it shows, and deleting a row.
 */
module AdminArtworksPage {
  import opened Wrappers
  import ArtworksRoute
  import Seqs

  /** A category as the page lists it. */
  datatype CategoryRef = CategoryRef(id: string, name: string)

  /** A row of the table; only the id matters to the page's logic. */
  datatype Row = Row(id: string, title: string)

  /**
   * The parameters appended in order: `search` when there is a search
   * term, `category` when one is chosen, `featured=true` when only
   * featured works are wanted. The sold checkbox is not a parameter.
   */
  function Query(searchTerm: string, selectedCategory: string, showFeatured: bool): (r: ArtworksRoute.QueryString)
    ensures |r| <= 3
  {
    (if searchTerm != "" then [("search", searchTerm)] else []) +
    (if selectedCategory != "" then [("category", selectedCategory)] else []) +
    (if showFeatured then [("featured", "true")] else [])
  }

  /** `get` on two lists of parameters one after the other: the first list wins. */
  lemma {:induction false} ParamAppend(a: ArtworksRoute.QueryString, b: ArtworksRoute.QueryString, key: string)
    ensures ArtworksRoute.Param(a + b, key) ==
      if ArtworksRoute.Param(a, key).Some? then ArtworksRoute.Param(a, key) else ArtworksRoute.Param(b, key)
  {
    if a == [] {
      assert a + b == b;
    } else {
      assert (a + b)[0] == a[0] && (a + b)[1..] == a[1..] + b;
      ParamAppend(a[1..], b, key);
    }
  }

  /** Each parameter is present exactly when its filter is set, with the filter's value. */
  lemma QueryParams(searchTerm: string, selectedCategory: string, showFeatured: bool)
    ensures ArtworksRoute.Param(Query(searchTerm, selectedCategory, showFeatured), "search") ==
      (if searchTerm != "" then Some(searchTerm) else None)
    ensures ArtworksRoute.Param(Query(searchTerm, selectedCategory, showFeatured), "category") ==
      (if selectedCategory != "" then Some(selectedCategory) else None)
    ensures ArtworksRoute.Param(Query(searchTerm, selectedCategory, showFeatured), "featured") ==
      (if showFeatured then Some("true") else None)
  {
    var s: ArtworksRoute.QueryString := if searchTerm != "" then [("search", searchTerm)] else [];
    var c: ArtworksRoute.QueryString := if selectedCategory != "" then [("category", selectedCategory)] else [];
    var f: ArtworksRoute.QueryString := if showFeatured then [("featured", "true")] else [];
    assert Query(searchTerm, selectedCategory, showFeatured) == (s + c) + f;
    assert "search" != "category" && "search" != "featured" && "category" != "featured" by {
      assert "search"[0] != "category"[0] && "search"[0] != "featured"[0] && "category"[0] != "featured"[0];
    }
    ParamAppend(s + c, f, "search");
    ParamAppend(s, c, "search");
    ParamAppend(s + c, f, "category");
    ParamAppend(s, c, "category");
    ParamAppend(s + c, f, "featured");
    ParamAppend(s, c, "featured");
  }

  /**
   * The server reads the request as the page meant it: the category it
   * filters on is the chosen one and it restricts to featured works
   * exactly when the box is ticked, since the page sends the very string
   * the server tests for.
   */
  lemma ServerReadsFilters(searchTerm: string, selectedCategory: string, showFeatured: bool)
    ensures ArtworksRoute.QueryOf(Query(searchTerm, selectedCategory, showFeatured)).category ==
      (if selectedCategory != "" then Some(selectedCategory) else None)
    ensures ArtworksRoute.QueryOf(Query(searchTerm, selectedCategory, showFeatured)).featuredOnly == showFeatured
    ensures ArtworksRoute.QueryOf(Query(searchTerm, selectedCategory, showFeatured)).limit == None
  {
    var q := Query(searchTerm, selectedCategory, showFeatured);
    QueryParams(searchTerm, selectedCategory, showFeatured);
    assert forall i :: 0 <= i < |q| ==> q[i].0 != "limit" by {
      assert "limit"[0] != "search"[0] && "limit"[0] != "category"[0] && "limit"[0] != "featured"[0];
    }
  }

  /** `categories.find(cat => cat._id === id)`: the index of the first match, if any. */
  function FirstWithId(categories: seq<CategoryRef>, id: string): (r: Option<nat>)
    ensures r.Some? ==> (r.value < |categories| && categories[r.value].id == id &&
                         forall j :: 0 <= j < r.value ==> categories[j].id != id)
    ensures r.None? ==> forall j :: 0 <= j < |categories| ==> categories[j].id != id
  {
    if categories == [] then None
    else if categories[0].id == id then Some(0)
    else
      match FirstWithId(categories[1..], id)
      case None => None
      case Some(k) => Some(k + 1)
  }

  /** `getCategoryName`: the name of the first category with that id, or `''`. */
  function CategoryName(categories: seq<CategoryRef>, id: string): (r: string)
    ensures (forall j :: 0 <= j < |categories| ==> categories[j].id != id) ==> r == ""
    ensures forall k :: (0 <= k < |categories| && categories[k].id == id &&
                         (forall j :: 0 <= j < k ==> categories[j].id != id)) ==> r == categories[k].name
  {
    match FirstWithId(categories, id)
    case None => ""
    case Some(k) => categories[k].name
  }

  /** Whether a row keeps its place when `id` is deleted. */
  function Keeps(id: string): Row -> bool {
    (x: Row) => x.id != id
  }

  /** `artworks.filter(artwork => artwork._id !== id)`: the rows whose id differs from `id`, in their order. */
  function Without(rows: seq<Row>, id: string): (r: seq<Row>)
    ensures |r| <= |rows|
    ensures forall x :: x in r <==> x in rows && x.id != id
  {
    Seqs.Filter(rows, Keeps(id))
  }

  /** Removal keeps order: it works piece by piece. */
  lemma WithoutConcat(a: seq<Row>, b: seq<Row>, id: string)
    ensures Without(a + b, id) == Without(a, id) + Without(b, id)
  {
    Seqs.FilterConcat(a, b, Keeps(id));
  }

  /** A list without that id is left as it is. */
  lemma WithoutAbsent(rows: seq<Row>, id: string)
    requires forall i :: 0 <= i < |rows| ==> rows[i].id != id
    ensures Without(rows, id) == rows
  {
    Seqs.FilterAll(rows, Keeps(id));
  }

  /** Deleting twice is deleting once. */
  lemma WithoutIdempotent(rows: seq<Row>, id: string)
    ensures Without(Without(rows, id), id) == Without(rows, id)
  {
    var r := Without(rows, id);
    assert forall i :: 0 <= i < |r| ==> r[i].id != id by {
      forall i | 0 <= i < |r| ensures r[i].id != id {
        assert r[i] in r;
      }
    }
    WithoutAbsent(r, id);
  }

  /** The page's state: the listed rows, the categories and the four filters. */
  class AdminArtworks {
    var artworks: seq<Row>
    var categories: seq<CategoryRef>
    var searchTerm: string
    var selectedCategory: string
    var showSold: bool
    var showFeatured: bool

    /** The filters start as `''`, `''`, sold shown, all works (not only featured). */
    constructor (categories: seq<CategoryRef>)
      ensures this.categories == categories && artworks == []
      ensures searchTerm == "" && selectedCategory == "" && showSold && !showFeatured
    {
      this.categories := categories;
      artworks := [];
      searchTerm := "";
      selectedCategory := "";
      showSold := true;
      showFeatured := false;
    }

    /** The `URLSearchParams` the fetch effect builds, one `append` at a time. */
    method QueryParams() returns (params: ArtworksRoute.QueryString)
      ensures params == Query(searchTerm, selectedCategory, showFeatured)
    {
      params := [];
      if searchTerm != "" {
        params := params + [("search", searchTerm)];
      }
      if selectedCategory != "" {
        params := params + [("category", selectedCategory)];
      }
      if showFeatured {
        params := params + [("featured", "true")];
      }
    }

    /** `handleDelete`: `confirmed` is the answer to the confirmation dialog. */
    method HandleDelete(id: string, confirmed: bool)
      modifies this
      ensures artworks == if confirmed then Without(old(artworks), id) else old(artworks)
      ensures categories == old(categories) && searchTerm == old(searchTerm) && selectedCategory == old(selectedCategory)
      ensures showSold == old(showSold) && showFeatured == old(showFeatured)
    {
      if !confirmed {
        return;
      }
      artworks := Without(artworks, id);
    }

    /** `resetFilters`: the filters go back to their initial values. */
    method ResetFilters()
      modifies this
      ensures searchTerm == "" && selectedCategory == "" && showSold && !showFeatured
      ensures artworks == old(artworks) && categories == old(categories)
    {
      searchTerm := "";
      selectedCategory := "";
      showSold := true;
      showFeatured := false;
    }
  }

  /** After a reset the request carries no parameter: the server lists every artwork. */
  lemma ResetQueryEmpty()
    ensures Query("", "", false) == []
    ensures ArtworksRoute.QueryOf(Query("", "", false)) == ArtworksRoute.Filter(None, false, None)
  {
    ServerReadsFilters("", "", false);
  }
}

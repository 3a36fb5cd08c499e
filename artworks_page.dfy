/**
 * The public artworks page: choosing a category toggles it, the choice
 * decides the request URL, and the count is shown with a Russian noun.
 */
module ArtworksPage {
  import opened Wrappers
  import ArtworksRoute

  const ListPath := "/api/artworks"
  const CategoryPrefix := "/api/artworks?category="

  /** `handleCategoryChange`: the chosen id, or nothing when it was already chosen. */
  function Toggle(selected: string, categoryId: string): (r: string)
    ensures categoryId == selected ==> r == ""
    ensures categoryId != selected ==> r == categoryId
  {
    if categoryId == selected then "" else categoryId
  }

  /** Choosing the same id twice returns to where it started, from nothing or from that id. */
  lemma ToggleTwice(selected: string, categoryId: string)
    ensures Toggle(Toggle(selected, categoryId), categoryId) == if selected == categoryId then selected else ""
  {
  }

  /** The URL fetched for a selection; the id is put in as it is. */
  function RequestUrl(selected: string): (r: string)
    ensures selected != "" ==> r == CategoryPrefix + selected
    ensures selected == "" ==> r == ListPath
  {
    if selected != "" then CategoryPrefix + selected else ListPath
  }

  /** The URL names a category exactly when one is selected, and then the selected one. */
  lemma UrlNamesSelection(selected: string)
    ensures |RequestUrl(selected)| > |ListPath| <==> selected != ""
    ensures selected != "" ==> RequestUrl(selected)[|CategoryPrefix|..] == selected
  {
  }

  /** The query the URL carries, as the server decodes it. */
  function RequestQuery(selected: string): (r: ArtworksRoute.QueryString)
    ensures RequestUrl(selected) == if r == [] then ListPath else CategoryPrefix + r[0].1
  {
    if selected != "" then [("category", selected)] else []
  }

  /** The server filters on the selected category and on nothing else. */
  lemma ServerFiltersSelection(selected: string)
    ensures ArtworksRoute.QueryOf(RequestQuery(selected)) ==
      ArtworksRoute.Filter(if selected != "" then Some(selected) else None, false, None)
  {
  }

  /** The noun after the count: 1 работа, 2 to 4 работы, anything else работ. */
  function CountWord(n: nat): (r: string)
    ensures r == "работа" <==> n == 1
    ensures r == "работы" <==> 2 <= n <= 4
    ensures r == "работ" <==> n == 0 || n >= 5
  {
    if n == 1 then "работа" else if n > 1 && n < 5 then "работы" else "работ"
  }

  /** The rule looks at the whole number, not at its last digit. */
  lemma CountWordExamples()
    ensures CountWord(0) == "работ" && CountWord(21) == "работ" && CountWord(22) == "работ"
  {
  }

  /** The page's selection. */
  class Artworks {
    var selectedCategory: string

    constructor ()
      ensures selectedCategory == ""
    {
      selectedCategory := "";
    }

    method HandleCategoryChange(categoryId: string)
      modifies this
      ensures selectedCategory == Toggle(old(selectedCategory), categoryId)
    {
      selectedCategory := if categoryId == selectedCategory then "" else categoryId;
    }

    /** The "all categories" button. */
    method ShowAll()
      modifies this
      ensures selectedCategory == "" && RequestUrl(selectedCategory) == ListPath
    {
      selectedCategory := "";
    }
  }
}

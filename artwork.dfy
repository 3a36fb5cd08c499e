/**
 * The Artwork schema: seven paths marked required, the `trim` setters on four of
 * them, the 100-character title limit, an optional price and the two
 * boolean flags that default to false.
 */
module ArtworkModel {
  import opened Wrappers
  import opened Text
  import opened Validation

  /**
   * An array path as a JSON body supplies it: left out, `null`, or an array.
   * Left out, the path gets Mongoose's implicit `[]`; `null` stays `null`.
   */
  datatype ListInput = Omitted | Null | Given(items: seq<string>)
  {
    /** The stored array when the value is not `null`: `[]` for a left-out path. */
    function Stored(): seq<string>
      requires !Null?
    {
      if Omitted? then [] else items
    }
  }

  /** A create request's fields, as the JSON body supplies them. */
  datatype ArtworkInput = ArtworkInput(
    title: Option<string>,
    description: Option<string>,
    imageUrl: Option<string>,
    categories: ListInput,
    year: Option<int>,
    technique: Option<string>,
    dimensions: Option<string>,
    price: Option<int>,
    isSold: Option<bool>,
    isFeatured: Option<bool>)

  /** The fields of an artwork that passed validation; `categories` holds category ids. */
  datatype ArtworkFields = ArtworkFields(
    title: string,
    description: string,
    imageUrl: string,
    categories: seq<string>,
    year: int,
    technique: string,
    dimensions: string,
    price: Option<int>,
    isSold: bool,
    isFeatured: bool)

  const MaxTitleLength: nat := 100
  const TitleRequired := "Пожалуйста, укажите название работы"
  const TitleTooLong := "Название не может быть длиннее 100 символов"
  const DescriptionRequired := "Пожалуйста, добавьте описание работы"
  const ImageRequired := "Пожалуйста, добавьте изображение работы"
  const CategoriesRequired := "Пожалуйста, выберите хотя бы одну категорию"
  const YearRequired := "Пожалуйста, укажите год создания"
  const TechniqueRequired := "Пожалуйста, укажите технику исполнения"
  const DimensionsRequired := "Пожалуйста, укажите размеры работы"

  /** The paths that carry a validator. */
  datatype Path = Title | Description | ImageUrl | Categories | Year | Technique | Dimensions
  {
    /** The path's name, the key of its entry in an error map. */
    function Name(): string {
      match this
      case Title => "title"
      case Description => "description"
      case ImageUrl => "imageUrl"
      case Categories => "categories"
      case Year => "year"
      case Technique => "technique"
      case Dimensions => "dimensions"
    }
  }

  /** Mongoose's `required` on a string path: absent and empty both fail. */
  predicate Present(v: Option<string>) {
    v.Some? && v.value != ""
  }

  function TrimOpt(v: Option<string>): Option<string> {
    match v
    case None => None
    case Some(s) => Some(Trim(s))
  }

  /**
   * Whether the `required` validator of a path fails. The four trimmed
   * paths are tested after trimming; `imageUrl` is tested as sent; the
   * number fails only when absent. An array path is never absent, since a
   * left-out array defaults to `[]`, and `required` accepts every array,
   * the empty one included: only `null` fails it.
   */
  predicate Missing(input: ArtworkInput, path: Path) {
    match path
    case Title => !Present(TrimOpt(input.title))
    case Description => !Present(TrimOpt(input.description))
    case ImageUrl => !Present(input.imageUrl)
    case Categories => input.categories.Null?
    case Year => input.year.None?
    case Technique => !Present(TrimOpt(input.technique))
    case Dimensions => !Present(TrimOpt(input.dimensions))
  }

  /** The message of a path's `required` validator. */
  function RequiredMessage(path: Path): string {
    match path
    case Title => TitleRequired
    case Description => DescriptionRequired
    case ImageUrl => ImageRequired
    case Categories => CategoriesRequired
    case Year => YearRequired
    case Technique => TechniqueRequired
    case Dimensions => DimensionsRequired
  }

  /** The title got past `required` but is over the limit once trimmed. */
  predicate TitleOverLong(input: ArtworkInput) {
    Present(TrimOpt(input.title)) && |Trim(input.title.value)| > MaxTitleLength
  }

  /** The first failing validator of a path, if any: `required` is checked before `maxlength`. */
  function PathError(input: ArtworkInput, path: Path): Option<string> {
    if Missing(input, path) then Some(RequiredMessage(path))
    else if path == Title && TitleOverLong(input) then Some(TitleTooLong)
    else None
  }

  /** Every path of the schema. */
  const AllPaths: set<Path> := {Title, Description, ImageUrl, Categories, Year, Technique, Dimensions}

  lemma EveryPathListed()
    ensures forall p: Path :: p in AllPaths
  {
    forall p: Path ensures p in AllPaths {
      match p
      case Title =>
      case Description =>
      case ImageUrl =>
      case Categories =>
      case Year =>
      case Technique =>
      case Dimensions =>
    }
  }

  /** Every failing path with the message of its first failing validator. */
  function Errors(input: ArtworkInput): (m: map<Path, string>)
    ensures forall p: Path :: p in m <==> PathError(input, p).Some?
    ensures forall p: Path :: p in m ==> m[p] == PathError(input, p).value
  {
    EveryPathListed();
    FailingPaths(AllPaths, p => PathError(input, p))
  }

  /** Different paths have different names. */
  lemma NameInjective(p: Path, q: Path)
    ensures p.Name() == q.Name() ==> p == q
  {
  }

  /** An error map keyed by path name, as Mongoose's `error.errors` holds it. */
  function Keyed(m: map<Path, string>): (r: map<string, string>)
    ensures forall p: Path :: p in m <==> p.Name() in r
    ensures forall p: Path :: p in m ==> r[p.Name()] == m[p]
    ensures forall k :: k in r ==> exists p: Path :: p in m && p.Name() == k
  {
    forall p: Path, q: Path ensures p.Name() == q.Name() ==> p == q {
      NameInjective(p, q);
    }
    map p | p in m :: p.Name() := m[p]
  }

  /**
   * Setters, then the validators of every path. A failed validation
   * reports each failing path with its message.
   */
  function Validate(input: ArtworkInput): (r: Result<ArtworkFields, map<Path, string>>)
    ensures r.Success? <==>
      Present(TrimOpt(input.title)) && |Trim(input.title.value)| <= MaxTitleLength &&
      Present(TrimOpt(input.description)) && Present(input.imageUrl) &&
      !input.categories.Null? && input.year.Some? &&
      Present(TrimOpt(input.technique)) && Present(TrimOpt(input.dimensions))
    ensures r.Success? ==> r.value == ArtworkFields(
      Trim(input.title.value), Trim(input.description.value), input.imageUrl.value,
      input.categories.Stored(), input.year.value, Trim(input.technique.value), Trim(input.dimensions.value),
      input.price, input.isSold.GetOr(false), input.isFeatured.GetOr(false))
    ensures r.Failure? ==> r.error == Errors(input)
  {
    var ok := PathError(input, Title).None? && PathError(input, Description).None? &&
      PathError(input, ImageUrl).None? && PathError(input, Categories).None? &&
      PathError(input, Year).None? && PathError(input, Technique).None? &&
      PathError(input, Dimensions).None?;
    if ok then
      Success(ArtworkFields(
        Trim(input.title.value), Trim(input.description.value), input.imageUrl.value,
        input.categories.Stored(), input.year.value, Trim(input.technique.value), Trim(input.dimensions.value),
        input.price, input.isSold.GetOr(false), input.isFeatured.GetOr(false)))
    else
      Failure(Errors(input))
  }

  /** Each missing required field is reported under its own path with its own message. */
  lemma MissingFieldReported(input: ArtworkInput, path: Path)
    requires Missing(input, path)
    ensures Validate(input).Failure?
    ensures path in Validate(input).error && Validate(input).error[path] == RequiredMessage(path)
  {
  }

  /**
   * Leaving `categories` out is the same as sending `[]`: the outcome is the
   * same, and a stored artwork has no categories.
   */
  lemma OmittedCategoriesDefaultEmpty(input: ArtworkInput)
    requires input.categories.Omitted?
    ensures Validate(input) == Validate(input.(categories := Given([])))
    ensures Validate(input).Success? ==> Validate(input).value.categories == []
    ensures Categories !in Errors(input)
  {
    var sent := input.(categories := Given([]));
    forall p: Path ensures PathError(sent, p) == PathError(input, p) {
      assert Missing(sent, p) == Missing(input, p);
    }
    assert Errors(sent) == Errors(input);
  }

  /** An explicit `null` for `categories` fails `required` with its message. */
  lemma NullCategoriesReported(input: ArtworkInput)
    requires input.categories.Null?
    ensures Validate(input).Failure?
    ensures Categories in Validate(input).error && Validate(input).error[Categories] == CategoriesRequired
  {
  }

  /** A trimmed title over 100 characters is reported under `title`. */
  lemma LongTitleReported(input: ArtworkInput)
    requires TitleOverLong(input)
    ensures Validate(input).Failure?
    ensures Title in Validate(input).error && Validate(input).error[Title] == TitleTooLong
  {
  }

  /** Conversely, a path is reported only when one of its validators fails. */
  lemma ReportedMeansFailing(input: ArtworkInput, path: Path)
    requires Validate(input).Failure? && path in Validate(input).error
    ensures Missing(input, path) || (path == Title && TitleOverLong(input))
  {
  }

  /** The price is never validated: any price, or none, leaves the outcome unchanged. */
  lemma PriceIrrelevant(input: ArtworkInput, price: Option<int>)
    ensures Validate(input.(price := price)).Success? == Validate(input).Success?
    ensures Validate(input).Success? ==> Validate(input.(price := price)).value == Validate(input).value.(price := price)
  {
  }

  /**
   * Surrounding whitespace on the four trimmed paths makes no difference:
   * sending them already trimmed gives the same outcome.
   */
  lemma TrimmedPathsIgnorePadding(input: ArtworkInput)
    ensures Validate(input.(title := TrimOpt(input.title), description := TrimOpt(input.description),
      technique := TrimOpt(input.technique), dimensions := TrimOpt(input.dimensions))) == Validate(input)
  {
    var pre := input.(title := TrimOpt(input.title), description := TrimOpt(input.description),
      technique := TrimOpt(input.technique), dimensions := TrimOpt(input.dimensions));
    TrimOptIdempotent(input.title);
    TrimOptIdempotent(input.description);
    TrimOptIdempotent(input.technique);
    TrimOptIdempotent(input.dimensions);
    forall p: Path ensures PathError(pre, p) == PathError(input, p) {
      assert Missing(pre, p) == Missing(input, p);
    }
    assert Errors(pre) == Errors(input);
  }

  lemma TrimOptIdempotent(v: Option<string>)
    ensures TrimOpt(TrimOpt(v)) == TrimOpt(v)
  {
    if v.Some? {
      TrimIdempotent(v.value);
    }
  }

  /** `imageUrl` has no `trim` setter: a padded URL is stored with its padding. */
  lemma ImageUrlKeptVerbatim(input: ArtworkInput)
    requires Validate(input).Success?
    ensures Validate(input).value.imageUrl == input.imageUrl.value
  {
  }
}

/**
 * The admin form for a new artwork: one handler per kind of input event,
 * each replacing one field of the form state, and the submit gate.
 */
module NewArtworkPage {
  import opened Wrappers
  import opened Text

  const MissingFields := "Пожалуйста, заполните все обязательные поля"

  /** The form's state; `year` starts at the current year. */
  datatype FormData = FormData(
    title: string, description: string, imageUrl: string, categories: seq<string>,
    year: int, technique: string, dimensions: string, price: string,
    isSold: bool, isFeatured: bool)

  /** The inputs wired to `handleChange`: text-like ones carry a value, checkboxes `checked`. */
  datatype TextField = Title | Description | Technique | Dimensions | Price | Year
  datatype Flag = IsSold | IsFeatured
  datatype Change = Typed(field: TextField, value: string) | Checked(flag: Flag, checked: bool)

  /** One `<option>` of the category `<select multiple>`. */
  datatype SelectOption = SelectOption(value: string, selected: bool)

  function Initial(currentYear: int): (r: FormData)
    ensures r.price == "" && r.categories == [] && !r.isSold && !r.isFeatured
  {
    FormData("", "", "", [], currentYear, "", "", "", false, false)
  }

  /** What the price input accepts: `value === '' || /^\d+$/.test(value)`. */
  predicate PriceText(p: string) {
    p == "" || AllDigits(p)
  }

  /**
   * `handleChange`: a checkbox sets its flag; price takes only digits or
   * nothing; year takes only a non-empty digit string, as its value; any
   * other field takes the value as typed.
   */
  function Apply(f: FormData, c: Change): (r: FormData)
    ensures c.Checked? && c.flag == IsSold ==> r == f.(isSold := c.checked)
    ensures c.Checked? && c.flag == IsFeatured ==> r == f.(isFeatured := c.checked)
    ensures c.Typed? && c.field == Title ==> r == f.(title := c.value)
    ensures c.Typed? && c.field == Description ==> r == f.(description := c.value)
    ensures c.Typed? && c.field == Technique ==> r == f.(technique := c.value)
    ensures c.Typed? && c.field == Dimensions ==> r == f.(dimensions := c.value)
    ensures r.imageUrl == f.imageUrl && r.categories == f.categories
  {
    match c
    case Checked(IsSold, checked) => f.(isSold := checked)
    case Checked(IsFeatured, checked) => f.(isFeatured := checked)
    case Typed(Price, value) => if PriceText(value) then f.(price := value) else f
    case Typed(Year, value) => if AllDigits(value) then f.(year := DigitsValue(value, 10)) else f
    case Typed(Title, value) => f.(title := value)
    case Typed(Description, value) => f.(description := value)
    case Typed(Technique, value) => f.(technique := value)
    case Typed(Dimensions, value) => f.(dimensions := value)
  }

  /** A price edit is taken whole when it is digits or empty and is otherwise ignored. */
  lemma PriceFilter(f: FormData, value: string)
    ensures PriceText(value) ==> Apply(f, Typed(Price, value)) == f.(price := value)
    ensures !PriceText(value) ==> Apply(f, Typed(Price, value)) == f
  {
  }

  /**
   * A year edit is taken only when it is a non-empty digit string, as the
   * number `parseInt` reads from it; so clearing the input keeps the year.
   */
  lemma YearFilter(f: FormData, value: string)
    ensures AllDigits(value) ==> Apply(f, Typed(Year, value)) == f.(year := DigitsValue(value, 10))
    ensures AllDigits(value) ==> ParseInt(value) == Some(Apply(f, Typed(Year, value)).year)
    ensures !AllDigits(value) ==> Apply(f, Typed(Year, value)) == f
    ensures Apply(f, Typed(Year, "")) == f
  {
    if AllDigits(value) {
      ParseIntDigits(value);
    }
  }

  /** Every edit sequence applied in turn. */
  function ApplyAll(f: FormData, changes: seq<Change>): FormData
    decreases |changes|
  {
    if changes == [] then f else ApplyAll(Apply(f, changes[0]), changes[1..])
  }

  /** From a well-formed price, no sequence of edits leads to one that is not. */
  lemma {:induction false} PriceStaysText(f: FormData, changes: seq<Change>)
    requires PriceText(f.price)
    ensures PriceText(ApplyAll(f, changes).price)
    decreases |changes|
  {
    if changes != [] {
      var g := Apply(f, changes[0]);
      assert PriceText(g.price) by {
        match changes[0]
        case Typed(Price, value) =>
        case _ => assert g.price == f.price;
      }
      PriceStaysText(g, changes[1..]);
    }
  }

  /** In particular from the initial form, whose price is empty. */
  lemma PriceAfterEdits(currentYear: int, changes: seq<Change>)
    ensures PriceText(ApplyAll(Initial(currentYear), changes).price)
  {
    PriceStaysText(Initial(currentYear), changes);
  }

  /** The values of the selected options, in option order. */
  function SelectedValues(options: seq<SelectOption>): (r: seq<string>)
    ensures |r| <= |options|
    ensures forall v :: v in r <==> exists i :: 0 <= i < |options| && options[i].selected && options[i].value == v
  {
    if options == [] then []
    else
      var init := options[..|options| - 1];
      var last := options[|options| - 1];
      assert forall i :: 0 <= i < |options| - 1 ==> init[i] == options[i];
      SelectedValues(init) + (if last.selected then [last.value] else [])
  }

  /** Selecting every option sends every value, in order. */
  lemma {:induction false} AllSelected(options: seq<SelectOption>)
    requires forall i :: 0 <= i < |options| ==> options[i].selected
    ensures SelectedValues(options) == seq(|options|, i requires 0 <= i < |options| => options[i].value)
  {
    if options != [] {
      AllSelected(options[..|options| - 1]);
    }
  }

  /**
   * The submit gate: title, description, image URL, technique and
   * dimensions non-empty and at least one category. Price and year are
   * not looked at.
   */
  predicate Complete(f: FormData) {
    f.title != "" && f.description != "" && f.imageUrl != "" && |f.categories| > 0 &&
    f.technique != "" && f.dimensions != ""
  }

  lemma GateIgnoresPriceAndYear(f: FormData, price: string, year: int)
    ensures Complete(f.(price := price, year := year)) == Complete(f)
  {
  }

  /** The freshly opened form cannot be submitted: its fields are empty. */
  lemma InitialIncomplete(currentYear: int)
    ensures !Complete(Initial(currentYear))
  {
  }

  /** The page's state: the form, the preview URL, the loading flag and the error banner. */
  class NewArtworkForm {
    var formData: FormData
    var imagePreview: Option<string>
    var isLoading: bool
    var error: Option<string>

    /** The price field only ever holds digits or nothing. */
    predicate Valid()
      reads this
    {
      PriceText(formData.price)
    }

    /** `currentYear` is `new Date().getFullYear()` at mount time. */
    constructor (currentYear: int)
      ensures Valid()
      ensures formData == Initial(currentYear) && imagePreview == None && !isLoading && error == None
    {
      formData := Initial(currentYear);
      imagePreview := None;
      isLoading := false;
      error := None;
    }

    method HandleChange(c: Change)
      requires Valid()
      modifies this
      ensures Valid()
      ensures formData == Apply(old(formData), c)
      ensures imagePreview == old(imagePreview) && isLoading == old(isLoading) && error == old(error)
    {
      match c
      case Checked(IsSold, checked) =>
        formData := formData.(isSold := checked);
      case Checked(IsFeatured, checked) =>
        formData := formData.(isFeatured := checked);
      case Typed(Price, value) =>
        if value == "" || AllDigits(value) {
          formData := formData.(price := value);
        }
      case Typed(Year, value) =>
        if AllDigits(value) {
          formData := formData.(year := DigitsValue(value, 10));
        }
      case Typed(Title, value) =>
        formData := formData.(title := value);
      case Typed(Description, value) =>
        formData := formData.(description := value);
      case Typed(Technique, value) =>
        formData := formData.(technique := value);
      case Typed(Dimensions, value) =>
        formData := formData.(dimensions := value);
    }

    /** `handleCategoryChange`: the loop over the options collects the selected values. */
    method HandleCategoryChange(options: seq<SelectOption>)
      requires Valid()
      modifies this
      ensures Valid()
      ensures formData == old(formData).(categories := SelectedValues(options))
      ensures imagePreview == old(imagePreview) && isLoading == old(isLoading) && error == old(error)
    {
      var selectedCategories: seq<string> := [];
      for i := 0 to |options|
        invariant selectedCategories == SelectedValues(options[..i])
      {
        assert options[..i + 1][..i] == options[..i];
        if options[i].selected {
          selectedCategories := selectedCategories + [options[i].value];
        }
      }
      assert options[..|options|] == options;
      formData := formData.(categories := selectedCategories);
    }

    /**
     * `handleImageChange`: `previewUrl` is the object URL made for the
     * chosen file, `None` when no file was chosen.
     */
    method HandleImageChange(previewUrl: Option<string>)
      requires Valid()
      modifies this
      ensures Valid()
      ensures previewUrl.None? ==> formData == old(formData) && imagePreview == old(imagePreview)
      ensures previewUrl.Some? ==> formData == old(formData).(imageUrl := previewUrl.value) && imagePreview == previewUrl
      ensures isLoading == old(isLoading) && error == old(error)
    {
      if previewUrl.Some? {
        imagePreview := previewUrl;
        formData := formData.(imageUrl := previewUrl.value);
      }
    }

    method HandleRemoveImage()
      requires Valid()
      modifies this
      ensures Valid()
      ensures formData == old(formData).(imageUrl := "") && imagePreview == None
      ensures isLoading == old(isLoading) && error == old(error)
    {
      imagePreview := None;
      formData := formData.(imageUrl := "");
    }

    /**
     * `handleSubmit`: `navigated` is the redirect to the list. The request
     * itself is commented out in the page, so a complete form always
     * succeeds; an incomplete one shows the fixed message. The loading flag
     * is cleared either way.
     */
    method HandleSubmit() returns (navigated: bool)
      requires Valid()
      modifies this
      ensures Valid()
      ensures navigated == Complete(old(formData))
      ensures error == if navigated then None else Some(MissingFields)
      ensures !isLoading
      ensures formData == old(formData) && imagePreview == old(imagePreview)
    {
      isLoading := true;
      error := None;
      if !Complete(formData) {
        error := Some(MissingFields);
        isLoading := false;
        return false;
      }
      navigated := true;
      isLoading := false;
    }
  }
}

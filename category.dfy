/**
 * The Category schema: its fields, the `required`/`maxlength` rules, the
 * `trim` setters, and the slug the pre-validate hook derives from the name.
 */
module CategoryModel {
  import opened Wrappers
  import opened Text
  import Seqs

  /**
   * The class `[а-яa-z0-9\s]` that the slug keeps. Cyrillic а-я is
   * U+0430-U+044F, so ё (U+0451) is not in it.
   */
  predicate Kept(c: char) {
    ('\U{0430}' <= c <= '\U{044F}') || ('a' <= c <= 'z') || ('0' <= c <= '9') || IsSpace(c)
  }

  /** A character a slug may contain: a kept character other than whitespace, or `-`. */
  predicate IsSlugChar(c: char) {
    ('\U{0430}' <= c <= '\U{044F}') || ('a' <= c <= 'z') || ('0' <= c <= '9') || c == '-'
  }

  /** `.replace(/[^а-яa-z0-9\s]/g, '')`. */
  function StripDisallowed(s: string): (r: string)
    ensures |r| <= |s|
  {
    if s == [] then []
    else if Kept(s[0]) then [s[0]] + StripDisallowed(s[1..])
    else StripDisallowed(s[1..])
  }

  /**
   * `.replace(/\s+/g, '-')`, scanned left to right: `inRun` says the
   * previous character was whitespace that is already part of a dash, so
   * each maximal whitespace run yields exactly one `-`.
   */
  function Dash(s: string, inRun: bool): (r: string)
    ensures |r| <= |s|
  {
    if s == [] then []
    else if IsSpace(s[0]) then (if inRun then Dash(s[1..], true) else ['-'] + Dash(s[1..], true))
    else [s[0]] + Dash(s[1..], false)
  }

  function DashSpaces(s: string): (r: string)
    ensures |r| <= |s|
  {
    Dash(s, false)
  }

  /** The slug the pre-validate hook assigns: lower-case, strip, then dash the whitespace runs. */
  function Slug(name: string): string {
    DashSpaces(StripDisallowed(Lower(name)))
  }

  // ---------------------------------------------------------------------
  // An equational description of DashSpaces: words are kept, runs become
  // one dash, and the string splits at any boundary that is not inside a run.

  lemma {:induction false} DashWord(w: string, inRun: bool)
    requires forall i :: 0 <= i < |w| ==> !IsSpace(w[i])
    ensures Dash(w, inRun) == w
  {
    if w != [] {
      DashWord(w[1..], false);
      assert w == [w[0]] + w[1..];
    }
  }

  /** A string free of whitespace is its own DashSpaces. */
  lemma DashSpacesWord(w: string)
    requires forall i :: 0 <= i < |w| ==> !IsSpace(w[i])
    ensures DashSpaces(w) == w
  {
    DashWord(w, false);
  }

  lemma {:induction false} DashInRun(run: string, rest: string)
    requires AllSpace(run)
    ensures Dash(run + rest, true) == Dash(rest, true)
  {
    if run != [] {
      assert (run + rest)[1..] == run[1..] + rest;
      DashInRun(run[1..], rest);
    } else {
      assert run + rest == rest;
    }
  }

  /** The scan state only matters while the scan is inside a run. */
  lemma DashStateIrrelevant(s: string)
    requires s == [] || !IsSpace(s[0])
    ensures Dash(s, true) == Dash(s, false)
  {
  }

  /** A whitespace run followed by a word start becomes one dash. */
  lemma DashSpacesRun(run: string, rest: string)
    requires run != [] && AllSpace(run)
    requires rest == [] || !IsSpace(rest[0])
    ensures DashSpaces(run + rest) == ['-'] + DashSpaces(rest)
  {
    assert (run + rest)[0] == run[0];
    assert (run + rest)[1..] == run[1..] + rest;
    DashInRun(run[1..], rest);
    DashStateIrrelevant(rest);
  }

  lemma {:induction false} DashAppend(a: string, b: string, inRun: bool)
    requires a != [] && !IsSpace(a[|a| - 1])
    ensures Dash(a + b, inRun) == Dash(a, inRun) + Dash(b, false)
  {
    var ab := a + b;
    assert ab[0] == a[0];
    if |a| == 1 {
      assert ab[1..] == b;
      assert a[1..] == [];
    } else {
      assert ab[1..] == a[1..] + b;
      DashAppend(a[1..], b, IsSpace(a[0]));
    }
  }

  /** The slug splits wherever the text before the split does not end in whitespace. */
  lemma DashSpacesAppend(a: string, b: string)
    requires a == [] || !IsSpace(a[|a| - 1])
    ensures DashSpaces(a + b) == DashSpaces(a) + DashSpaces(b)
  {
    if a == [] {
      assert a + b == b;
    } else {
      DashAppend(a, b, false);
    }
  }

  lemma {:induction false} StripAppend(a: string, b: string)
    ensures StripDisallowed(a + b) == StripDisallowed(a) + StripDisallowed(b)
  {
    if a == [] {
      assert a + b == b;
    } else {
      assert (a + b)[1..] == a[1..] + b;
      StripAppend(a[1..], b);
    }
  }

  lemma {:induction false} StripKeeps(s: string)
    requires forall i :: 0 <= i < |s| ==> Kept(s[i])
    ensures StripDisallowed(s) == s
  {
    if s != [] {
      StripKeeps(s[1..]);
      assert s == [s[0]] + s[1..];
    }
  }

  // ---------------------------------------------------------------------
  // What every slug looks like.

  lemma {:induction false} StripKeptOnly(s: string)
    ensures forall i :: 0 <= i < |StripDisallowed(s)| ==> Kept(StripDisallowed(s)[i])
  {
    if s != [] {
      StripKeptOnly(s[1..]);
    }
  }

  lemma {:induction false} DashAlphabet(s: string, inRun: bool)
    requires forall i :: 0 <= i < |s| ==> Kept(s[i])
    ensures forall i :: 0 <= i < |Dash(s, inRun)| ==> IsSlugChar(Dash(s, inRun)[i])
  {
    if s != [] {
      DashAlphabet(s[1..], IsSpace(s[0]));
    }
  }

  /** A slug holds only а-я, a-z, 0-9 and `-`, and never whitespace. */
  lemma SlugAlphabet(name: string)
    ensures forall i :: 0 <= i < |Slug(name)| ==> IsSlugChar(Slug(name)[i]) && !IsSpace(Slug(name)[i])
  {
    StripKeptOnly(Lower(name));
    DashAlphabet(StripDisallowed(Lower(name)), false);
  }

  /** The slug is never longer than the name: stripping only drops and a run of n ≥ 1 spaces becomes one dash. */
  lemma SlugLength(name: string)
    ensures |Slug(name)| <= |name|
  {
  }

  /** What the scan emits for one character. */
  function Emit(c: char, inRun: bool): (r: string)
    ensures |r| <= 1
    ensures IsSpace(c) ==> r == (if inRun then [] else ['-'])
    ensures !IsSpace(c) ==> r == [c]
  {
    if !IsSpace(c) then [c] else if inRun then [] else ['-']
  }

  lemma DashStep(s: string, inRun: bool)
    requires s != []
    ensures Dash(s, inRun) == Emit(s[0], inRun) + Dash(s[1..], IsSpace(s[0]))
  {
  }

  lemma {:induction false} DashNoDoubleDash(s: string, inRun: bool)
    requires forall i :: 0 <= i < |s| ==> s[i] != '-'
    ensures var r := Dash(s, inRun); forall i :: 0 <= i < |r| - 1 ==> !(r[i] == '-' && r[i + 1] == '-')
    ensures inRun ==> Dash(s, inRun) == [] || Dash(s, inRun)[0] != '-'
  {
    if s != [] {
      var t := Dash(s[1..], IsSpace(s[0]));
      var e := Emit(s[0], inRun);
      DashNoDoubleDash(s[1..], IsSpace(s[0]));
      DashStep(s, inRun);
      var r := e + t;
      assert r == Dash(s, inRun);
      if e == ['-'] {
        assert IsSpace(s[0]);
        assert t == [] || t[0] != '-';
        forall i | 0 <= i < |r| - 1 ensures !(r[i] == '-' && r[i + 1] == '-') {
          if i > 0 {
            assert r[i] == t[i - 1] && r[i + 1] == t[i];
          }
        }
      } else if e == [] {
        assert r == t;
      } else {
        forall i | 0 <= i < |r| - 1 ensures !(r[i] == '-' && r[i + 1] == '-') {
          if i > 0 {
            assert r[i] == t[i - 1] && r[i + 1] == t[i];
          } else {
            assert r[0] == s[0];
          }
        }
      }
    }
  }

  /**
   * A slug never has two dashes in a row: the hyphens of the name are
   * stripped before the whitespace runs are turned into dashes.
   */
  lemma SlugNoDoubleDash(name: string)
    ensures forall i :: 0 <= i < |Slug(name)| - 1 ==> !(Slug(name)[i] == '-' && Slug(name)[i + 1] == '-')
  {
    StripKeptOnly(Lower(name));
    DashNoDoubleDash(StripDisallowed(Lower(name)), false);
    assert Slug(name) == Dash(StripDisallowed(Lower(name)), false);
  }

  /** Case does not matter: a name and its lower-case form have the same slug. */
  lemma SlugIgnoresCase(name: string)
    ensures Slug(Lower(name)) == Slug(name)
  {
    LowerIdempotent(name);
  }

  /** A character the slug drops can be inserted anywhere without changing the slug. */
  lemma SlugIgnoresDropped(a: string, c: char, b: string)
    requires !Kept(LowerChar(c))
    ensures Slug(a + [c] + b) == Slug(a + b)
  {
    LowerAppend(a + [c], b);
    LowerAppend(a, [c]);
    LowerAppend(a, b);
    StripAppend(Lower(a) + Lower([c]), Lower(b));
    StripAppend(Lower(a), Lower([c]));
    StripAppend(Lower(a), Lower(b));
    assert StripDisallowed(Lower([c])) == [];
    calc {
      StripDisallowed(Lower(a + [c] + b));
      StripDisallowed(Lower(a) + Lower([c]) + Lower(b));
      StripDisallowed(Lower(a)) + StripDisallowed(Lower([c])) + StripDisallowed(Lower(b));
      StripDisallowed(Lower(a)) + StripDisallowed(Lower(b));
      StripDisallowed(Lower(a + b));
    }
  }

  /**
   * The `lowercase` and `trim` setters on the slug path change nothing
   * about a derived slug, so the stored slug is exactly `Slug(name)`.
   */
  lemma SlugSettersNoop(name: string)
    ensures Lower(Slug(name)) == Slug(name)
    ensures Trim(Slug(name)) == Slug(name)
  {
    var s := Slug(name);
    SlugAlphabet(name);
    SlugCharsLower(s);
    if s != [] {
      assert !IsSpace(s[0]) && !IsSpace(s[|s| - 1]);
    }
    TrimNoop(s);
  }

  /** Slug characters are already lower-case. */
  lemma SlugCharsLower(s: string)
    requires forall i :: 0 <= i < |s| ==> IsSlugChar(s[i])
    ensures Lower(s) == s
  {
    forall i | 0 <= i < |s| ensures Lower(s)[i] == s[i] {
      assert IsSlugChar(s[i]);
    }
  }

  // ---------------------------------------------------------------------
  // Computing slugs piece by piece.

  /** A letter the slug keeps as its lower-case form. */
  predicate SlugLetter(c: char) {
    Kept(LowerChar(c)) && !IsSpace(c)
  }

  /** A word of slug letters turns into its lower-case form. */
  lemma SlugOfWord(w: string)
    requires forall i :: 0 <= i < |w| ==> SlugLetter(w[i])
    ensures Slug(w) == Lower(w)
  {
    StripKeeps(Lower(w));
    DashSpacesWord(Lower(w));
  }

  /** A word followed by anything: the slug starts with the lower-cased word. */
  lemma SlugAfterWord(w: string, rest: string)
    requires forall i :: 0 <= i < |w| ==> SlugLetter(w[i])
    ensures Slug(w + rest) == Lower(w) + Slug(rest)
  {
    LowerAppend(w, rest);
    StripAppend(Lower(w), Lower(rest));
    StripKeeps(Lower(w));
    DashSpacesAppend(Lower(w), StripDisallowed(Lower(rest)));
    DashSpacesWord(Lower(w));
  }

  /** A first character the slug keeps as a letter starts the slug. */
  lemma SlugHead(name: string)
    requires name != [] && SlugLetter(name[0])
    ensures Slug(name) == [LowerChar(name[0])] + Slug(name[1..])
  {
    SlugAfterWord([name[0]], name[1..]);
    assert [name[0]] + name[1..] == name;
  }

  /** "Брендинг" and "Брендинг!" share a slug, so the second of them breaks the unique slug. */
  lemma SlugExamplePunctuation()
    ensures Slug("Брендинг!") == Slug("Брендинг")
  {
    SlugIgnoresDropped("Брендинг", '!', "");
    assert "Брендинг" + ['!'] + "" == "Брендинг!";
    assert "Брендинг" + "" == "Брендинг";
  }

  /** Ё lower-cases to ё, which lies outside а-я and is dropped. */
  lemma SlugExampleYo()
    ensures Slug("Ёлка") == "лка"
  {
    SlugIgnoresDropped("", 'Ё', "лка");
    assert "" + ['Ё'] + "лка" == "Ёлка";
    assert "" + "лка" == "лка";
    SlugOfWord("лка");
  }

  /** Stripping keeps a first character that is kept. */
  lemma StripHead(s: string)
    requires s != [] && Kept(s[0])
    ensures StripDisallowed(s) != [] && StripDisallowed(s)[0] == s[0]
  {
  }

  /**
   * " - " between two words, as in "Граффити - Оформление фасадов": the
   * hyphen is stripped and the two spaces left around it become one dash.
   */
  lemma SlugSpacedHyphen(w: string, rest: string)
    requires forall i :: 0 <= i < |w| ==> SlugLetter(w[i])
    requires rest != [] && SlugLetter(rest[0])
    ensures Slug(w + " - " + rest) == Lower(w) + "-" + Slug(rest)
  {
    var tail := " - " + rest;
    SlugLeadingSpacedHyphen(rest);
    SlugAfterWord(w, tail);
    var lw, sr := Lower(w), Slug(rest);
    Seqs.ConcatAssoc(w, " - ", rest);
    Seqs.ConcatAssoc(lw, "-", sr);
  }

  lemma SlugLeadingSpacedHyphen(rest: string)
    requires rest != [] && SlugLetter(rest[0])
    ensures Slug(" - " + rest) == "-" + Slug(rest)
  {
    var x := StripDisallowed(Lower(rest));
    StripHead(Lower(rest));
    LowerAppend(" - ", rest);
    StripAppend(Lower(" - "), Lower(rest));
    StripSpacedHyphen();
    DashSpacesRun("  ", x);
  }

  lemma StripSpacedHyphen()
    ensures StripDisallowed(Lower(" - ")) == "  "
  {
  }

  // ---------------------------------------------------------------------
  // The schema.

  /** A create request's fields, as the JSON body supplies them. */
  datatype CategoryInput = CategoryInput(name: Option<string>, description: Option<string>, slug: Option<string>, order: Option<int>)

  /** The fields of a category that passed validation. */
  datatype CategoryFields = CategoryFields(name: string, description: Option<string>, slug: string, order: int)

  /** One of the fixed categories the bootstrap routes insert. */
  datatype CategorySeed = CategorySeed(name: string, description: string)

  const MaxNameLength: nat := 50
  const NameRequired := "Пожалуйста, укажите название категории"
  const NameTooLong := "Название не может быть длиннее 50 символов"
  /** Mongoose's default message for a `required: true` path. */
  const SlugRequired := "Path `slug` is required."

  function SeedInput(seed: CategorySeed): CategoryInput {
    CategoryInput(Some(seed.name), Some(seed.description), None, None)
  }

  /** Mongoose's `required` on a string path: absent and empty both fail. */
  predicate Present(v: Option<string>) {
    v.Some? && v.value != ""
  }

  function TrimOpt(v: Option<string>): Option<string> {
    match v
    case None => None
    case Some(s) => Some(Trim(s))
  }

  /** The slug after the pre-validate hook: derived from the (trimmed) name whenever it is non-empty. */
  function HookedSlug(input: CategoryInput): Option<string> {
    var name := TrimOpt(input.name);
    if Present(name) then Some(Slug(name.value))
    else match input.slug
      case None => None
      case Some(s) => Some(Trim(Lower(s)))
  }

  /** What a stored category satisfies once it got past validation. */
  predicate WellFormed(f: CategoryFields) {
    0 < |f.name| <= MaxNameLength && Trim(f.name) == f.name && f.slug == Slug(f.name) && f.slug != ""
  }

  /** The first failing validator on the (trimmed) name: `required`, then `maxlength`. */
  function NameError(name: Option<string>): (r: Option<string>)
    ensures r.None? <==> Present(name) && |name.value| <= MaxNameLength
    ensures r.Some? ==> r.value == (if Present(name) then NameTooLong else NameRequired)
  {
    if !Present(name) then Some(NameRequired)
    else if |name.value| > MaxNameLength then Some(NameTooLong)
    else None
  }

  /** The error map of a failed validation: one entry per failing path. */
  function Errors(nameError: Option<string>, slugOk: bool): (m: map<string, string>)
    ensures "name" in m <==> nameError.Some?
    ensures "slug" in m <==> !slugOk
    ensures m.Keys <= {"name", "slug"}
    ensures nameError.Some? ==> m["name"] == nameError.value
    ensures !slugOk ==> m["slug"] == SlugRequired
  {
    var m: map<string, string> := if nameError.Some? then map["name" := nameError.value] else map[];
    if slugOk then m else m["slug" := SlugRequired]
  }

  /**
   * Setters, the pre-validate hook, then the validators: name required and
   * at most 50 characters, slug required; order defaults to 0. A failure
   * maps each failing path to its message.
   */
  function Validate(input: CategoryInput): (r: Result<CategoryFields, map<string, string>>)
    ensures var name := TrimOpt(input.name);
      r.Success? <==> Present(name) && |name.value| <= MaxNameLength && Slug(name.value) != ""
    ensures r.Success? ==> r.value == CategoryFields(Trim(input.name.value), TrimOpt(input.description), Slug(Trim(input.name.value)), input.order.GetOr(0))
    ensures r.Failure? ==> r.error.Keys <= {"name", "slug"}
    ensures r.Failure? ==> ("name" in r.error <==> NameError(TrimOpt(input.name)).Some?)
    ensures r.Failure? ==> ("slug" in r.error <==> !Present(HookedSlug(input)))
    ensures r.Failure? && "name" in r.error ==> r.error["name"] == (if Present(TrimOpt(input.name)) then NameTooLong else NameRequired)
    ensures r.Failure? && "slug" in r.error ==> r.error["slug"] == SlugRequired
  {
    var name := TrimOpt(input.name);
    var slug := HookedSlug(input);
    var nameError := NameError(name);
    if nameError.None? && Present(slug) then
      Success(CategoryFields(name.value, TrimOpt(input.description), slug.value, input.order.GetOr(0)))
    else
      Failure(Errors(nameError, Present(slug)))
  }

  /** Whatever passes validation is well formed: trimmed, at most 50 characters, with its own non-empty slug. */
  lemma ValidateWellFormed(input: CategoryInput)
    requires Validate(input).Success?
    ensures WellFormed(Validate(input).value)
  {
    TrimIdempotent(input.name.value);
  }

  /** A request without a name fails on both required paths; the hook leaves the slug unset. */
  lemma NamelessFails(input: CategoryInput)
    requires input.name.None? && input.slug.None?
    ensures Validate(input).Failure?
    ensures Validate(input).error == map["name" := NameRequired, "slug" := SlugRequired]
  {
  }

  /** The slug a client sends is ignored whenever there is a name: the hook recomputes it. */
  lemma ClientSlugIgnored(input: CategoryInput, slug: Option<string>)
    requires Present(TrimOpt(input.name))
    ensures Validate(input.(slug := slug)) == Validate(input)
  {
  }

  /** A name that strips to nothing ("!!!") leaves an empty slug and fails `required` on the slug. */
  lemma PunctuationNameFails()
    ensures Validate(CategoryInput(Some("!!!"), None, None, None)) == Failure(map["slug" := SlugRequired])
  {
    SlugIgnoresDropped("", '!', "!!");
    SlugIgnoresDropped("", '!', "!");
    SlugIgnoresDropped("", '!', "");
    assert "" + ['!'] + "!!" == "!!!";
    assert "" + ['!'] + "!" == "!!";
    assert "" + ['!'] + "" == "!";
    TrimNoop("!!!");
  }
}

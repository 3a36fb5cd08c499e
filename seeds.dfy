/**
 * The fixed categories the seeding routes insert, and the facts about
 * their names those routes rely on: each one validates as written and no
 * two of them share a slug.
 */
module Seeds {
  import opened Wrappers
  import opened Text
  import opened CategoryModel

  const Painting := CategorySeed("Живопись", "Картины, написанные маслом, акрилом и другими красками")
  const Graphics := CategorySeed("Графика", "Рисунки карандашом, тушью, пастелью")
  const Sculpture := CategorySeed("Скульптура", "Трехмерные произведения искусства")
  const Photography := CategorySeed("Фотография", "Художественная и документальная фотография")
  const DigitalArt := CategorySeed("Цифровое искусство", "Произведения, созданные с помощью компьютерных технологий")
  const Installation := CategorySeed("Инсталляция", "Пространственные композиции из различных материалов")
  const Watercolor := CategorySeed("Акварель", "Картины, написанные акварельными красками")
  const Portrait := CategorySeed("Портрет", "Изображения людей в различных техниках")
  const Landscape := CategorySeed("Пейзаж", "Изображения природы и городских видов")
  const Abstraction := CategorySeed("Абстракция", "Беспредметное искусство, основанное на цвете и форме")
  const FacadeGraffiti := CategorySeed("Граффити - Оформление фасадов", "Художественное оформление внешних стен зданий и сооружений")
  const InteriorGraffiti := CategorySeed("Граффити - Интерьерный дизайн", "Художественное оформление внутренних помещений в стиле граффити")
  const TelegramStickers := CategorySeed("Стикеры Telegram", "Разработка наборов стикеров для мессенджера Telegram")
  const Branding := CategorySeed("Брендинг", "Разработка логотипов, фирменного стиля и брендбуков")

  /** The number of default categories. */
  const DefaultCount: nat := 14

  /** The default category at position `k` of `defaultCategories`. */
  function Default(k: nat): CategorySeed
    requires k < DefaultCount
  {
    if k == 0 then Painting
    else if k == 1 then Graphics
    else if k == 2 then Sculpture
    else if k == 3 then Photography
    else if k == 4 then DigitalArt
    else if k == 5 then Installation
    else if k == 6 then Watercolor
    else if k == 7 then Portrait
    else if k == 8 then Landscape
    else if k == 9 then Abstraction
    else if k == 10 then FacadeGraffiti
    else if k == 11 then InteriorGraffiti
    else if k == 12 then TelegramStickers
    else Branding
  }

  /** `defaultCategories` of the init route, in its order. */
  function DefaultCategories(): (r: seq<CategorySeed>)
    ensures |r| == DefaultCount && forall k :: 0 <= k < DefaultCount ==> r[k] == Default(k)
  {
    seq(DefaultCount, k requires 0 <= k < DefaultCount => Default(k))
  }

  /** `newCategories` of the add-new route: the same four seeds as the last four defaults. */
  function NewCategories(): (r: seq<CategorySeed>)
    ensures r == DefaultCategories()[10..]
  {
    [FacadeGraffiti, InteriorGraffiti, TelegramStickers, Branding]
  }

  /** A fixed name that validates as written: no surrounding whitespace, at most 50 characters, a first character the slug keeps. */
  predicate Seedable(name: string) {
    0 < |name| <= MaxNameLength && !IsSpace(name[0]) && !IsSpace(name[|name| - 1]) && SlugLetter(name[0])
  }

  /** A seed with such a name validates to its own name, its slug and order 0. */
  lemma SeedValidates(seed: CategorySeed)
    requires Seedable(seed.name)
    ensures CategoryModel.Validate(SeedInput(seed)).Success?
    ensures CategoryModel.Validate(SeedInput(seed)).value ==
      CategoryFields(seed.name, Some(Trim(seed.description)), Slug(seed.name), 0)
  {
    TrimNoop(seed.name);
    SlugHead(seed.name);
  }

  /** The slug of a name starting with `k` slug letters starts with those letters in lower case. */
  lemma SlugStartsWith(name: string, k: nat)
    requires k <= |name| && forall i :: 0 <= i < k ==> SlugLetter(name[i])
    ensures |Slug(name)| >= k && forall i :: 0 <= i < k ==> Slug(name)[i] == LowerChar(name[i])
  {
    SlugAfterWord(name[..k], name[k..]);
    assert name[..k] + name[k..] == name;
  }

  /**
   * A few characters that tell the fourteen default slugs apart: the
   * first, then the second, fifth or tenth where the first is shared.
   */
  function Tag(s: string): int {
    if |s| < 2 then -1
    else if s[0] == 'ж' then 0
    else if s[0] == 'г' then
      (if |s| > 4 && s[4] == 'и' then 1 else if |s| > 9 && s[9] == 'о' then 10 else if |s| > 9 && s[9] == 'и' then 11 else -1)
    else if s[0] == 'с' then (if s[1] == 'к' then 2 else if s[1] == 'т' then 12 else -1)
    else if s[0] == 'ф' then 3
    else if s[0] == 'ц' then 4
    else if s[0] == 'и' then 5
    else if s[0] == 'а' then (if s[1] == 'к' then 6 else if s[1] == 'б' then 9 else -1)
    else if s[0] == 'п' then (if s[1] == 'о' then 7 else if s[1] == 'е' then 8 else -1)
    else if s[0] == 'б' then 13
    else -1
  }


  /**
   * A name whose first `n` characters are slug letters: its slug starts
   * with them in lower case, so its tag is that of any string that does.
   */
  lemma PrefixTag(name: string, n: nat, k: int)
    requires n <= |name| && forall i :: 0 <= i < n ==> SlugLetter(name[i])
    requires forall s: string {:trigger Tag(s)} :: |s| >= n && (forall i :: 0 <= i < n ==> s[i] == LowerChar(name[i])) ==> Tag(s) == k
    ensures Tag(Slug(name)) == k
  {
    SlugStartsWith(name, n);
  }

  /** The two "Граффити - ..." names: the slug is "граффити-" and then the first letter of the rest. */
  lemma GraffitiTag(name: string, k: int)
    requires |name| > 11 && name[..11] == "Граффити - " && SlugLetter(name[11])
    requires forall s: string {:trigger Tag(s)} :: |s| >= 10 && s[0] == 'г' && s[4] == 'ф' && s[9] == LowerChar(name[11]) ==> Tag(s) == k
    ensures Tag(Slug(name)) == k
  {
    var rest := name[11..];
    assert name == "Граффити" + " - " + rest;
    SlugSpacedHyphen("Граффити", rest);
    SlugHead(rest);
  }

  /** Every default name validates as written. */
  lemma DefaultSeedable(k: nat)
    requires k < DefaultCount
    ensures Seedable(Default(k).name)
  {
    if k < 5 {
      FirstSeedable(k);
    } else if k < 10 {
      MiddleSeedable(k);
    } else {
      LastSeedable(k);
    }
  }

  /** A default name carries no surrounding whitespace, so the `trim` setter leaves it as written. */
  lemma DefaultTrimmed(k: nat)
    requires k < DefaultCount
    ensures Trim(Default(k).name) == Default(k).name
  {
    DefaultSeedable(k);
    TrimNoop(Default(k).name);
  }

  lemma FirstSeedable(k: nat)
    requires k < 5
    ensures Seedable(Default(k).name)
  {
  }

  lemma MiddleSeedable(k: nat)
    requires 5 <= k < 10
    ensures Seedable(Default(k).name)
  {
  }

  lemma LastSeedable(k: nat)
    requires 10 <= k < DefaultCount
    ensures Seedable(Default(k).name)
  {
  }

  /** The slug of every default carries the tag of its position, so no two defaults share a slug. */
  lemma DefaultTag(k: nat)
    requires k < DefaultCount
    ensures Tag(Slug(Default(k).name)) == k
  {
    if k <= 1 {
      Tags01(k);
    } else if k <= 3 {
      Tags23(k);
    } else if k <= 5 {
      Tags45(k);
    } else if k <= 7 {
      Tags67(k);
    } else if k <= 9 {
      Tags89(k);
    } else if k <= 11 {
      Tags1011(k);
    } else {
      Tags1213(k);
    }
  }

  lemma Tags01(k: nat)
    requires k == 0 || k == 1
    ensures Tag(Slug(Default(k).name)) == k
  {
    if k == 0 {
      PrefixTag(Default(k).name, 2, 0);
    } else {
      PrefixTag(Default(k).name, 5, 1);
    }
  }

  lemma Tags23(k: nat)
    requires k == 2 || k == 3
    ensures Tag(Slug(Default(k).name)) == k
  {
    if k == 2 {
      PrefixTag(Default(k).name, 2, 2);
    } else {
      PrefixTag(Default(k).name, 2, 3);
    }
  }

  lemma Tags45(k: nat)
    requires k == 4 || k == 5
    ensures Tag(Slug(Default(k).name)) == k
  {
    if k == 4 {
      PrefixTag(Default(k).name, 2, 4);
    } else {
      PrefixTag(Default(k).name, 2, 5);
    }
  }

  lemma Tags67(k: nat)
    requires k == 6 || k == 7
    ensures Tag(Slug(Default(k).name)) == k
  {
    if k == 6 {
      PrefixTag(Default(k).name, 2, 6);
    } else {
      PrefixTag(Default(k).name, 2, 7);
    }
  }

  lemma Tags89(k: nat)
    requires k == 8 || k == 9
    ensures Tag(Slug(Default(k).name)) == k
  {
    if k == 8 {
      PrefixTag(Default(k).name, 2, 8);
    } else {
      PrefixTag(Default(k).name, 2, 9);
    }
  }

  lemma Tags1011(k: nat)
    requires k == 10 || k == 11
    ensures Tag(Slug(Default(k).name)) == k
  {
    if k == 10 {
      GraffitiTag(Default(k).name, 10);
    } else {
      GraffitiTag(Default(k).name, 11);
    }
  }

  lemma Tags1213(k: nat)
    requires k == 12 || k == 13
    ensures Tag(Slug(Default(k).name)) == k
  {
    if k == 12 {
      PrefixTag(Default(k).name, 2, 12);
    } else {
      PrefixTag(Default(k).name, 2, 13);
    }
  }
}

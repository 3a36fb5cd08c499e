# Art gallery data layer, modelled in Dafny

A model of the data layer of the art gallery web application (Next.js route
handlers over Mongoose models) and of the three pages whose state logic
drives it. It covers the following.

- **Categories.** The Mongoose schema, with `trim`, `required`, `maxlength`, `lowercase`, the unique name and slug indexes and the default `order`. The `pre('validate')` hook that derives the slug from the name. The routes `GET`/`POST /api/categories`, `GET /api/init` (seeds fourteen defaults into an empty collection), `POST /api/categories/add-new` (adds four categories unless a category with that name exists), `POST /api/categories/reset` and `GET /api/categories/check`.
- **Artworks.** The schema's validators and defaults. `GET /api/artworks`, which reads `category`, `featured` and `limit`, sorts newest first and truncates. `POST /api/artworks`.
- **Users.** The schema's setters and validators, with the e-mail regular expression proved equal to a direct recogniser, and the `pre('save')` hook that hashes a modified password.
- **Login.** `POST /api/auth/login`, which compares against fixed credentials.
- **Pages.** From the admin new-artwork form: its state and `handleChange`, `handleCategoryChange`, `handleImageChange`, `handleRemoveImage` and `handleSubmit`. From the admin artwork list: its filters, the query it sends, `getCategoryName`, `handleDelete` and `resetFilters`. From the public artworks page: the category toggle, the request URL and the count word.

The database is a class `Store.Database` with the category and artwork
collections as sequence fields, a counter standing for generated ids and a
`reachable` flag standing for a failed connection. Each route handler is a
method on it, proved against functions that say what the response and the new
collections are. Validation is stated as functions over the request body,
with an if-and-only-if for success and the exact error map for failure.

Four behaviours of the code may surprise a reader; the model states each
as the code has it.

- `GET /api/categories` only reads. The fourteen default categories are written by `GET /api/init`, and only into an empty collection.
- A duplicate category name or slug is answered with status 400 and its own message, the same status as a validation error.
- The admin list page sends a `search` parameter, but `GET /api/artworks` never reads it (`ArtworksRoute.SearchIgnored`).
- `POST /api/artworks` needs six fields: title, description, image, year, technique and dimensions. `categories` is marked required too, but a left-out array gets Mongoose's implicit `[]`, which `required` accepts, so only an explicit `null` fails it.

## Model

| member | source | states |
|---|---|---|
| Text.LowerChar | src/models/Category.ts:46 | Lower-casing changes only Latin and Cyrillic capitals and never turns a space into a non-space or back |
| Text.Lower | src/models/Category.ts:46 | `toLowerCase` maps each character independently and keeps the length |
| Text.LowerIdempotent | src/models/Category.ts:29 | Lower-casing twice is lower-casing once |
| Text.LowerAppend | src/models/Category.ts:46 | Lower-casing distributes over concatenation |
| Text.TrimStartSpec | src/models/Category.ts:17 | The left trim is a suffix of the input whose cut prefix is all whitespace and whose first character is not whitespace |
| Text.TrimEndSpec | src/models/Category.ts:17 | The right trim is a prefix of the input whose cut suffix is all whitespace and whose last character is not whitespace |
| Text.TrimEnds | src/models/Category.ts:17 | A trimmed string is empty or starts and ends with a non-space |
| Text.TrimIsSlice | src/models/Category.ts:17 | The trimmed string is a contiguous slice with only whitespace cut on either side |
| Text.TrimNoop | src/models/Category.ts:17 | A string without whitespace at either end is left unchanged by trim |
| Text.TrimIdempotent | src/models/Category.ts:30 | Trimming twice is trimming once |
| Text.LowerTrimCommute | src/models/User.ts:26-27 | Trimming and lower-casing commute, so the order of the two setters does not matter |
| Text.LexLeTotal | src/app/api/categories/route.ts:10 | The name order used by `sort({ name: 1 })` relates any two strings |
| Text.LexLeTransitive | src/app/api/categories/route.ts:10 | The name order is transitive |
| Text.LexLeAntisymmetric | src/app/api/categories/route.ts:10 | Two names ordered both ways are equal |
| Text.DigitValue | src/app/api/artworks/route.ts:14 | A digit's value is below the radix; in radix 10 exactly `0`-`9` are digits |
| Text.DigitPrefix | src/app/api/artworks/route.ts:14 | `parseInt` reads the longest prefix of digits and stops at the first non-digit |
| Text.ParseIntDigits | src/app/api/artworks/route.ts:14 | `parseInt` of a decimal digit string is its value |
| Text.ParseIntIgnoresTail | src/app/api/artworks/route.ts:14 | `parseInt` ignores whatever follows the leading digits (except a `0x` prefix) |
| Text.ParseIntNaN | src/app/api/artworks/route.ts:14 | A string that does not start with a digit, sign or whitespace parses to NaN |
| Text.ParseIntNegative | src/app/api/artworks/route.ts:14 | A minus sign before digits yields the negated value |
| Seqs.Filter | src/app/api/artworks/route.ts:28 | A filter keeps exactly the elements that satisfy the predicate |
| Seqs.FilterMultiset | src/app/api/artworks/route.ts:28 | A filter keeps every copy of a satisfying element and no copy of the others |
| Seqs.FilterConcat | src/app/admin/artworks/page.tsx:118 | Filtering a concatenation filters each part |
| Seqs.FilterAgree | src/app/api/categories/add-new/route.ts:30 | Predicates that agree on every element filter alike |
| Seqs.Reverse | src/app/api/artworks/route.ts:28 | Reversal puts element `i` at `n - 1 - i` and keeps the multiset |
| Seqs.Take | src/app/api/artworks/route.ts:30-32 | `limit(n)` keeps the first `min(n, length)` elements |
| Seqs.Insert | src/app/api/categories/route.ts:10 | Inserting into a sorted sequence keeps it sorted and adds exactly one element |
| Seqs.SortBy | src/app/api/categories/route.ts:10 | Sorting gives a sorted permutation of the input |
| Seqs.SortedUnique | src/app/api/categories/route.ts:10 | When no two distinct elements tie, two sorted permutations of one multiset are equal |
| CategoryModel.StripDisallowed | src/models/Category.ts:47 | Removing the disallowed characters never lengthens the name |
| CategoryModel.StripAppend | src/models/Category.ts:47 | The character filter works on each part of a concatenation separately |
| CategoryModel.StripKeeps | src/models/Category.ts:47 | A string of allowed characters passes the filter unchanged |
| CategoryModel.StripKeptOnly | src/models/Category.ts:47 | Only Cyrillic `а`-`я`, Latin `a`-`z`, digits and whitespace survive the filter |
| CategoryModel.DashSpaces | src/models/Category.ts:48 | Collapsing whitespace runs never lengthens the string |
| CategoryModel.DashSpacesWord | src/models/Category.ts:48 | A string without whitespace is unchanged by `replace(/\s+/g, '-')` |
| CategoryModel.DashSpacesRun | src/models/Category.ts:48 | A leading run of whitespace becomes exactly one dash |
| CategoryModel.DashSpacesAppend | src/models/Category.ts:48 | The replacement splits at any boundary not inside a whitespace run |
| CategoryModel.SlugAlphabet | src/models/Category.ts:45-48 | A slug holds only `а`-`я`, `a`-`z`, digits and `-`, and no whitespace |
| CategoryModel.SlugLength | src/models/Category.ts:45-48 | A slug is never longer than its name |
| CategoryModel.SlugNoDoubleDash | src/models/Category.ts:48 | A slug never holds two dashes in a row |
| CategoryModel.SlugIgnoresCase | src/models/Category.ts:46 | Names differing only in case get the same slug |
| CategoryModel.SlugIgnoresDropped | src/models/Category.ts:47 | Inserting a character the filter drops does not change the slug |
| CategoryModel.SlugSettersNoop | src/models/Category.ts:29-30 | The `lowercase` and `trim` setters of the slug path leave a derived slug unchanged |
| CategoryModel.SlugOfWord | src/models/Category.ts:45-48 | The slug of a word of allowed letters is that word in lower case |
| CategoryModel.SlugExamplePunctuation | src/models/Category.ts:47 | "Брендинг!" and "Брендинг" get the same slug |
| CategoryModel.SlugExampleYo | src/models/Category.ts:46-47 | In "Ёлка" the letter `ё` is outside `а-я` and is dropped, giving "лка" |
| CategoryModel.SlugSpacedHyphen | src/models/Category.ts:47-48 | "A - B" becomes "a-b": the filter drops the hyphen and the spaces around it become one dash |
| CategoryModel.NameError | src/models/Category.ts:16-19 | The name fails exactly when missing, empty or over 50 characters, with the `required` message before the `maxlength` one |
| CategoryModel.Errors | src/models/Category.ts:14-31 | The error map has `name` exactly when the name fails and `slug` exactly when the slug is missing |
| CategoryModel.Validate | src/models/Category.ts:14-51 | Validation succeeds iff the trimmed name is present, at most 50 long and gives a non-empty slug; on success it stores the trimmed name and description, the derived slug and order defaulting to 0; on failure it reports exactly the failing paths with their messages |
| CategoryModel.ValidateWellFormed | src/models/Category.ts:43-51 | A stored category's name is trimmed and non-empty, and its slug is the non-empty slug of that name |
| CategoryModel.NamelessFails | src/models/Category.ts:14-31 | A body with neither name nor slug fails on both paths |
| CategoryModel.ClientSlugIgnored | src/models/Category.ts:44-45 | When a name is present the hook overwrites whatever slug the client sent |
| CategoryModel.PunctuationNameFails | src/models/Category.ts:25-48 | A name of punctuation only passes `required` but leaves an empty slug, which fails it |
| Email.GroupsIff | src/models/User.ts:29 | `([.-]?\w+)*` matches exactly the strings whose separators are single and followed by a word character |
| Email.LocalIff | src/models/User.ts:29 | `\w+([.-]?\w+)*` matches exactly the separated chains that start with a word character |
| Email.DomainToShape | src/models/User.ts:29 | Whatever the domain part `\w+([.-]?\w+)*(\.\w{2,3})+` matches is a chain ending in a dot and two or three word characters |
| Email.ShapeToDomain | src/models/User.ts:29 | Every such chain is matched by the domain part |
| Email.MatchesIff | src/models/User.ts:28-31 | The e-mail regular expression matches exactly the strings the recogniser `IsEmail` accepts |
| Email.EmailIffTraits | src/models/User.ts:28-31 | An address matches iff it has one `@`, only word characters, separators and `@`, starts with a word character, ends in a 2- or 3-letter suffix after a dot, and has no separator next to another separator or the `@` |
| UserModel.Errors | src/models/User.ts:16-38 | The error map holds exactly the paths whose first validator fails, each with that validator's message |
| UserModel.Validate | src/models/User.ts:14-47 | Validation succeeds iff the trimmed name is present and at most 50 long, the trimmed lower-cased email is present and matches, and the password is present with at least 6 characters; on success it stores the normalised values and `isAdmin` defaulting to false |
| UserModel.SetterOrderIrrelevant | src/models/User.ts:26-27 | Trimming and lower-casing the email give the same result in either order |
| UserModel.EmailCaseCollision | src/models/User.ts:22-27 | Emails differing only in case are stored as one value, so the unique index sees them as one |
| UserModel.StoredEmailTraits | src/models/User.ts:28-31 | A stored email matches the pattern and has its traits |
| UserModel.ReportedIff | src/models/User.ts:16-38 | A path is in the error report iff its validator fails, with that validator's message, and any failing path makes validation fail |
| UserModel.ShortPasswordRejected | src/models/User.ts:36 | A non-empty password shorter than 6 characters fails with the `minlength` message |
| UserModel.PasswordNotTrimmed | src/models/User.ts:33-38 | The password path has no `trim`, so six spaces pass its validators |
| UserModel.UserDocument.constructor | src/models/User.ts:52 | A new document counts its password as modified |
| UserModel.UserDocument.SetPassword | src/models/User.ts:52 | Assigning a password marks it modified |
| UserModel.UserDocument.PreSave | src/models/User.ts:50-61 | The hook replaces a modified password by its hash and leaves an unmodified one alone |
| UserModel.UserDocument.Saved | src/models/User.ts:52 | A written or loaded document has no modified password and keeps its fields |
| UserModel.UserDocument.Save | src/models/User.ts:50-61 | `save()` hashes a modified password once and leaves the document unmodified |
| UserModel.UserDocument.SaveTwice | src/models/User.ts:52-56 | A second save without a new password does not hash the hash |
| ArtworkModel.Errors | src/models/Artwork.ts:20-52 | The error map holds exactly the paths whose first validator fails, each with that validator's message; `categories` fails only when sent as `null` |
| Validation.FailingPaths | src/app/api/artworks/route.ts:66-68 | The `errors` of a validation error hold exactly the failing paths, each with its message |
| ArtworkModel.NameInjective | src/models/Artwork.ts:20-52 | Distinct paths have distinct names |
| ArtworkModel.Keyed | src/app/api/artworks/route.ts:66-68 | Re-keying errors by path name keeps every path and its message and adds nothing |
| ArtworkModel.Validate | src/models/Artwork.ts:18-64 | Validation succeeds iff the trimmed title is present and at most 100 long, the trimmed description, technique and dimensions are present, the image URL is present, the year is given and `categories` is not `null`; on success it stores the trimmed strings, the categories sent or `[]` when left out, the price as given and both flags defaulting to false; on failure the error map is exactly the failing paths |
| ArtworkModel.OmittedCategoriesDefaultEmpty | src/models/Artwork.ts:35-38 | Leaving `categories` out gives the same outcome as sending `[]`, never reports `categories`, and stores no categories |
| ArtworkModel.NullCategoriesReported | src/models/Artwork.ts:35-38 | An explicit `null` for `categories` fails with the `required` message under `categories` |
| ArtworkModel.MissingFieldReported | src/models/Artwork.ts:20-52 | A missing required path is reported with its own message |
| ArtworkModel.LongTitleReported | src/models/Artwork.ts:24 | A title over 100 characters after trimming is reported with the `maxlength` message |
| ArtworkModel.ReportedMeansFailing | src/models/Artwork.ts:20-52 | Only a missing path or an over-long title is ever reported |
| ArtworkModel.PriceIrrelevant | src/models/Artwork.ts:53-55 | Among integer prices, the price has no validator: it never affects success and is stored as given |
| ArtworkModel.TrimmedPathsIgnorePadding | src/models/Artwork.ts:20-52 | Padding the four trimmed paths with whitespace does not change the result |
| ArtworkModel.TrimOptIdempotent | src/models/Artwork.ts:23 | Trimming an optional value twice is trimming it once |
| ArtworkModel.ImageUrlKeptVerbatim | src/models/Artwork.ts:31-34 | The image URL has no `trim` and is stored exactly as sent |
| Store.Data | src/app/api/categories/route.ts:31 | The stored fields of a document sequence, position by position |
| Store.Stamp | src/app/api/init/route.ts:73 | An inserted batch gets consecutive ids and one timestamp and keeps its fields and order |
| Store.AdmittedIsFirstClash | src/app/api/init/route.ts:73 | The number of documents an ordered `insertMany` inserts is the position of the first one clashing with the store or an earlier one |
| Store.AdmittedAll | src/app/api/init/route.ts:73 | A batch with unique keys that clashes with nothing in the store is inserted whole |
| Store.FirstFailure | src/app/api/init/route.ts:73 | The first document that fails validation, or none when all pass |
| Store.Values | src/app/api/init/route.ts:73 | The validated fields of a batch that passes, position by position |
| Store.AllSucceed | src/app/api/init/route.ts:73 | A batch whose every result is a success has no failure and yields those values |
| Store.FindByName | src/app/api/categories/add-new/route.ts:30 | `findOne({ name })` finds a document iff one has the name as the `trim` setter leaves it, and returns a stored document with that name |
| Store.ByNameOrders | src/app/api/categories/check/route.ts:8 | Sorting by name is by a total, transitive order |
| Store.SortedByName | src/app/api/categories/check/route.ts:8 | The by-name listing is a sorted permutation of the store |
| Store.SortedByNameUnique | src/app/api/categories/check/route.ts:8 | With unique names the by-name listing is the only sorted arrangement, so storage order never shows |
| Store.NameIdentifies | src/models/Category.ts:18 | Under the unique name index a name identifies one stored category |
| Store.Database.constructor | src/app/api/init/route.ts:66 | A new store is empty, with the given reachability |
| Store.Database.FindCategories | src/app/api/init/route.ts:69 | `Category.find()` returns the collection, or fails when the database is unreachable |
| Store.Database.FindCategoryByName | src/app/api/categories/add-new/route.ts:30 | `findOne` returns the by-name lookup, or fails when unreachable |
| Store.Database.FindArtworks | src/app/api/artworks/route.ts:28 | `Artwork.find` reads the collection, or fails when unreachable |
| Store.Database.InsertValidated | src/models/Category.ts:18-28 | Saving a validated category fails with code 11000 and changes nothing on a name or slug clash, and otherwise appends it with the next id |
| Store.Database.CreateCategory | src/app/api/categories/route.ts:31 | `Category.create` fails unreachable, then with the validation errors, then with code 11000, and otherwise appends the validated category |
| Store.Database.InsertCategories | src/app/api/init/route.ts:73 | Ordered `insertMany`: any validation failure inserts nothing; otherwise the documents before the first clash are inserted and stay, and the call fails with code 11000 unless all were inserted |
| Store.Database.InsertBatch | src/app/api/init/route.ts:73 | A validated batch is inserted up to its first clash |
| Store.Database.DeleteAllCategories | src/app/api/categories/reset/route.ts:10 | `deleteMany({})` empties the collection when reachable and touches nothing else |
| Store.Database.CreateArtwork | src/app/api/artworks/route.ts:55 | `Artwork.create` fails unreachable, then with the errors keyed by path name, and otherwise appends the validated artwork |
| Http.CollectValidationErrors | src/app/api/categories/route.ts:42-44 | The `for ... in` loop copies every failing path with its message and nothing else |
| Seeds.DefaultCategories | src/app/api/init/route.ts:5-62 | Fourteen default categories, in the source's order |
| Seeds.NewCategories | src/app/api/categories/add-new/route.ts:5-22 | The four categories of `add-new` are the last four defaults |
| Seeds.SeedValidates | src/models/Category.ts:14-51 | A seed with a trimmed, short name starting with a slug letter validates to its name, slug and order 0 |
| Seeds.DefaultSeedable | src/app/api/init/route.ts:5-62 | Every default name validates |
| Seeds.DefaultTrimmed | src/app/api/init/route.ts:5-62 | No default name carries whitespace for the `trim` setter to cut |
| Seeds.DefaultTag | src/app/api/init/route.ts:5-62 | The slugs of the defaults are pairwise distinct, told apart by a tag of their first letters |
| InitRoute.DefaultFields | src/app/api/init/route.ts:5-62 | The stored form of each default: its name, trimmed description, slug and order 0 |
| InitRoute.DefaultValidates | src/app/api/init/route.ts:73 | Each default validates to its stored form |
| InitRoute.DefaultsUnique | src/app/api/init/route.ts:5-62 | No two defaults share a name or a slug |
| InitRoute.DefaultsAllAdmitted | src/app/api/init/route.ts:73 | Into an empty collection all fourteen defaults are inserted |
| InitRoute.InsertDefaults | src/app/api/init/route.ts:73 | Seeding an empty, reachable collection stores exactly the fourteen defaults with consecutive ids |
| InitRoute.Get | src/app/api/init/route.ts:64-91 | An empty collection is seeded and the seeds reported; a non-empty one is reported unchanged; an unreachable database gives 500 |
| AddNewLoop.Added | src/app/api/categories/add-new/route.ts:29-34 | The loop never creates more categories than it has seeds |
| AddNewLoop.AddedFromSeeds | src/app/api/categories/add-new/route.ts:29-34 | Every created category comes from a seed whose name was absent and that validated |
| AddNewLoop.CompleteMeansPresent | src/app/api/categories/add-new/route.ts:29-34 | After a successful run `findOne` finds every seed's name |
| AddNewLoop.IncompleteMeansRejected | src/app/api/categories/add-new/route.ts:29-34 | A failed run stopped at a seed whose name was absent and whose create failed |
| AddNewLoop.AllPresentAddsNothing | src/app/api/categories/add-new/route.ts:30-31 | When every name is already stored the loop creates nothing |
| AddNewLoop.AddNewIdempotent | src/app/api/categories/add-new/route.ts:29-34 | Running the loop again after a successful run creates nothing, whatever the seeds' padding |
| AddNewLoop.AddedExactlyAbsent | src/app/api/categories/add-new/route.ts:29-34 | A complete run over names distinct once trimmed creates exactly one category per seed whose name was missing, with those names trimmed, in seed order |
| AddNewLoop.LookupIgnoresPadding | src/app/api/categories/add-new/route.ts:30 | `findOne({ name })` casts the name through the `trim` setter, so a padded name finds the stored one |
| AddNewLoop.NameNotAdded | src/app/api/categories/add-new/route.ts:30 | Storing a category with another name does not change whether `findOne` finds a name |
| AddNewLoop.AddSeed | src/app/api/categories/add-new/route.ts:30-33 | One iteration skips a stored name, otherwise creates the category or fails |
| AddNewLoop.AddSeeds | src/app/api/categories/add-new/route.ts:29-34 | The loop appends exactly the categories the specification `Added` creates, keeps them on failure, and reports whether it completed |
| AddNewRoute.NothingNewAfterInit | src/app/api/categories/add-new/route.ts:5-22 | After `init` all four new categories are already there |
| AddNewRoute.Post | src/app/api/categories/add-new/route.ts:24-50 | The route adds the missing categories and lists all by name, or answers 500 while keeping what it added |
| ResetRoute.Post | src/app/api/categories/reset/route.ts:5-22 | Reset empties the categories and reports it, or answers 500 and changes nothing |
| CheckRoute.Report | src/app/api/categories/check/route.ts:10-13 | The report's count is the number of categories it lists, and it lists all of them |
| CheckRoute.Get | src/app/api/categories/check/route.ts:5-21 | The check route reports the whole collection, or 500 when unreachable |
| CheckRoute.ReportListsAll | src/app/api/categories/check/route.ts:8 | The report is sorted by name and lists a document iff it is stored |
| CheckRoute.EmptyReport | src/app/api/categories/check/route.ts:10-13 | An empty collection reports count 0 |
| CategoriesRoute.ByOrderThenNameOrders | src/app/api/categories/route.ts:10 | Sorting by order, then name, is by a total, transitive order |
| CategoriesRoute.Listing | src/app/api/categories/route.ts:10 | The listing is a permutation of the store sorted by order, then name |
| CategoriesRoute.ListingUnique | src/app/api/categories/route.ts:10 | With unique names the listing is the only such arrangement |
| CategoriesRoute.OrderZeroListsByName | src/app/api/categories/route.ts:10 | When every order is 0 the listing is the listing by name |
| CategoriesRoute.Get | src/app/api/categories/route.ts:6-20 | The list route reads only and answers the listing, or 500 |
| CategoriesRoute.Post | src/app/api/categories/route.ts:23-65 | Create answers 201 with the stored category, 400 with every validation error, 400 with the duplicate message on a clash, and 500 for a non-JSON body or an unreachable database; only 201 changes the store |
| CategoriesRoute.SlugCollisionIsDuplicate | src/app/api/categories/route.ts:53-58 | A name whose slug is already stored clashes and is answered as a duplicate |
| ArtworksRoute.Param | src/app/api/artworks/route.ts:12-14 | `searchParams.get` returns the first value of a key, and nothing iff the key is absent |
| ArtworksRoute.ParamIgnoresOthers | src/app/api/artworks/route.ts:12-14 | Inserting another key's parameter does not change a lookup |
| ArtworksRoute.NewestFirstOrders | src/app/api/artworks/route.ts:28 | Newest first is a total, transitive order |
| ArtworksRoute.Matching | src/app/api/artworks/route.ts:17-28 | The matching artworks are a permutation of the filtered store, sorted newest first |
| ArtworksRoute.SelectIsPrefix | src/app/api/artworks/route.ts:30-32 | A positive limit keeps a prefix of the matching list of that length or less; no limit keeps all |
| ArtworksRoute.SelectSound | src/app/api/artworks/route.ts:19-25 | Every returned artwork is stored, holds the requested category and is featured when asked |
| ArtworksRoute.SelectComplete | src/app/api/artworks/route.ts:17-28 | Without a limit every matching artwork is returned, as often as it is stored |
| ArtworksRoute.SelectNewestFirst | src/app/api/artworks/route.ts:28 | The answer is sorted newest first |
| ArtworksRoute.FeaturedOnlyWhenTrue | src/app/api/artworks/route.ts:23-25 | The featured filter applies iff the parameter is exactly `true` |
| ArtworksRoute.LimitOnlyWhenPositive | src/app/api/artworks/route.ts:14-32 | A limit applies iff the parameter is non-empty and parses to a positive number, which is then the limit |
| ArtworksRoute.SearchIgnored | src/app/api/artworks/route.ts:11-25 | A `search` parameter never changes the query |
| ArtworksRoute.NonPositiveLimitsIgnored | src/app/api/artworks/route.ts:14-32 | `0`, negative numbers and non-numbers mean no limit |
| ArtworksRoute.DecimalLimit | src/app/api/artworks/route.ts:14 | A positive decimal limit is taken at its value |
| ArtworksRoute.NewestFirstReverses | src/app/api/artworks/route.ts:28 | Artworks stored in creation order, all matching, come back reversed |
| ArtworksRoute.OnlyReverseSorted | src/app/api/artworks/route.ts:28 | With distinct creation times the reversal is the only newest-first arrangement |
| ArtworksRoute.NewestFirstExample | src/app/api/artworks/route.ts:28 | Three artworks created one after another come back last first |
| ArtworksRoute.Get | src/app/api/artworks/route.ts:6-44 | The list route answers the selection the query names, or 500 |
| ArtworksRoute.Post | src/app/api/artworks/route.ts:47-81 | Create answers 201 with the stored artwork (a body without `categories` included), 400 with every validation error keyed by path, or 500 for a non-JSON body or an unreachable database; only 201 changes the store |
| LoginRoute.Member | src/app/api/auth/login/route.ts:11 | Destructuring finds a key iff the body is an object holding it |
| LoginRoute.Post | src/app/api/auth/login/route.ts:9-33 | 200 iff the body holds exactly the strings `123` and `456`; 500 iff the body is not JSON or is `null`; 401 with its message otherwise |
| LoginRoute.ExtraKeysIgnored | src/app/api/auth/login/route.ts:11 | Keys other than `email` and `password` do not change the answer |
| LoginRoute.StrictComparison | src/app/api/auth/login/route.ts:14 | `===` rejects the number 123 and a padded string |
| NewArtworkPage.Initial | src/app/admin/artworks/new/page.tsx:23-34 | The form starts with empty price, no categories and both flags off |
| NewArtworkPage.Apply | src/app/admin/artworks/new/page.tsx:62-81 | A checkbox sets its flag, a text field takes its value, and no change touches the image or the categories |
| NewArtworkPage.PriceFilter | src/app/admin/artworks/new/page.tsx:68-72 | The price takes a value iff it is empty or all digits, and otherwise stays |
| NewArtworkPage.YearFilter | src/app/admin/artworks/new/page.tsx:73-77 | The year takes the value of a non-empty digit string, agreeing with `parseInt`, and ignores anything else, including an empty field |
| NewArtworkPage.PriceStaysText | src/app/admin/artworks/new/page.tsx:68-72 | Any sequence of edits keeps the price empty or all digits |
| NewArtworkPage.PriceAfterEdits | src/app/admin/artworks/new/page.tsx:31-72 | From the initial form the price is always empty or digits |
| NewArtworkPage.SelectedValues | src/app/admin/artworks/new/page.tsx:88-92 | The selected categories are exactly the values of the selected options |
| NewArtworkPage.AllSelected | src/app/admin/artworks/new/page.tsx:88-92 | With every option selected the values come in option order |
| NewArtworkPage.GateIgnoresPriceAndYear | src/app/admin/artworks/new/page.tsx:127-129 | Price and year do not take part in the submit check |
| NewArtworkPage.InitialIncomplete | src/app/admin/artworks/new/page.tsx:23-129 | The initial form cannot be submitted |
| NewArtworkPage.NewArtworkForm.constructor | src/app/admin/artworks/new/page.tsx:16-34 | The component starts with the initial form, no preview, not loading and no error |
| NewArtworkPage.NewArtworkForm.HandleChange | src/app/admin/artworks/new/page.tsx:62-81 | The handler applies one change to the form and nothing else |
| NewArtworkPage.NewArtworkForm.HandleCategoryChange | src/app/admin/artworks/new/page.tsx:84-95 | The loop collects the selected values in the form's categories |
| NewArtworkPage.NewArtworkForm.HandleImageChange | src/app/admin/artworks/new/page.tsx:98-111 | A chosen file sets the preview and the image URL to its object URL; no file changes nothing |
| NewArtworkPage.NewArtworkForm.HandleRemoveImage | src/app/admin/artworks/new/page.tsx:114-117 | Removing the image clears the preview and the URL |
| NewArtworkPage.NewArtworkForm.HandleSubmit | src/app/admin/artworks/new/page.tsx:120-152 | Submit navigates iff the required fields are filled, sets the missing-fields error otherwise, and always ends not loading |
| AdminArtworksPage.Query | src/app/admin/artworks/page.tsx:50-53 | At most three parameters are sent |
| AdminArtworksPage.ParamAppend | src/app/admin/artworks/page.tsx:50-53 | A lookup in appended parameters finds the first part's value before the second's |
| AdminArtworksPage.QueryParams | src/app/admin/artworks/page.tsx:50-53 | `search`, `category` and `featured=true` are sent iff the filter is set |
| AdminArtworksPage.ServerReadsFilters | src/app/admin/artworks/page.tsx:56 | The server reads back the category and featured filters the page set, and no limit |
| AdminArtworksPage.FirstWithId | src/app/admin/artworks/page.tsx:103 | `find` returns the first category with the id, or none when no category has it |
| AdminArtworksPage.CategoryName | src/app/admin/artworks/page.tsx:102-105 | The name of the first category with the id, or empty when none has it |
| AdminArtworksPage.Without | src/app/admin/artworks/page.tsx:118 | Deleting keeps exactly the rows with another id |
| AdminArtworksPage.WithoutConcat | src/app/admin/artworks/page.tsx:118 | Deleting works on each part of a list separately |
| AdminArtworksPage.WithoutAbsent | src/app/admin/artworks/page.tsx:118 | Deleting an id no row has changes nothing |
| AdminArtworksPage.WithoutIdempotent | src/app/admin/artworks/page.tsx:118 | Deleting twice is deleting once |
| AdminArtworksPage.AdminArtworks.constructor | src/app/admin/artworks/page.tsx:31-41 | The page starts with no search, no category, sold shown and featured off |
| AdminArtworksPage.AdminArtworks.QueryParams | src/app/admin/artworks/page.tsx:50-53 | The component builds the query of its current filters |
| AdminArtworksPage.AdminArtworks.HandleDelete | src/app/admin/artworks/page.tsx:108-125 | A confirmed delete removes the rows with the id; a cancelled one changes nothing |
| AdminArtworksPage.AdminArtworks.ResetFilters | src/app/admin/artworks/page.tsx:133-138 | Reset restores the initial filters and keeps the lists |
| AdminArtworksPage.ResetQueryEmpty | src/app/admin/artworks/page.tsx:133-138 | After a reset the page sends no parameters and the server applies no filter |
| ArtworksPage.Toggle | src/app/artworks/page.tsx:82-84 | Choosing the selected category clears it; choosing another selects it |
| ArtworksPage.ToggleTwice | src/app/artworks/page.tsx:82-84 | Choosing the same category twice returns to no selection, unless it was selected at first |
| ArtworksPage.RequestUrl | src/app/artworks/page.tsx:37-39 | The URL names the category when one is selected and is the plain list otherwise |
| ArtworksPage.UrlNamesSelection | src/app/artworks/page.tsx:37-39 | The URL is longer than the plain list iff a category is selected, and then carries it verbatim |
| ArtworksPage.ServerFiltersSelection | src/app/artworks/page.tsx:37-39 | The server filters by exactly the selected category |
| ArtworksPage.CountWord | src/app/artworks/page.tsx:97-98 | "работа" iff 1, "работы" iff 2 to 4, "работ" iff 0 or 5 and above |
| ArtworksPage.CountWordExamples | src/app/artworks/page.tsx:97-98 | 0, 21 and 22 all read "работ" |
| ArtworksPage.Artworks.constructor | src/app/artworks/page.tsx:27 | Nothing is selected at first |
| ArtworksPage.Artworks.HandleCategoryChange | src/app/artworks/page.tsx:82-84 | The handler toggles the selection |
| ArtworksPage.Artworks.ShowAll | src/app/artworks/page.tsx:122 | The all-categories button clears the selection, so the plain list is requested |
| Scenarios.AddNewTwice | src/app/api/categories/add-new/route.ts:29-34 | A second `add-new` after a successful one creates nothing |
| Scenarios.ResetThenInit | src/app/api/categories/reset/route.ts:10 | Reset followed by init leaves exactly the fourteen defaults |
| Scenarios.InitTwice | src/app/api/init/route.ts:71-83 | A second init changes nothing and reports the stored categories |
| Scenarios.ResetTwice | src/app/api/categories/reset/route.ts:5-22 | Resetting twice answers the same and leaves the same collection |
| Scenarios.SeededListedByName | src/app/api/categories/route.ts:10 | The seeded categories all have order 0, so they are listed by name |
| Scenarios.CheckAfterReset | src/app/api/categories/check/route.ts:10-13 | After a reset the check reports count 0 and no categories |
| Scenarios.NothingNewOnDefaults | src/app/api/categories/add-new/route.ts:30-31 | Over the seeded defaults `add-new` creates nothing |
| Scenarios.AddNewAfterInit | src/app/api/categories/add-new/route.ts:24-42 | `add-new` right after init changes nothing and lists the defaults by name |

## Left out

- Password hashing with bcrypt: `PreSave` takes the hash function as a parameter, and its salt generation and failure are not modelled.
- `comparePassword` (src/models/User.ts:64-70) is a call into bcrypt and is not modelled.
- The connection caching of src/lib/mongodb.ts is not modelled: a failed connection or query is the `reachable` flag of `Store.Database`.
- The upload route and the routes under `[id]` are outside the modelled core.
- The pages that only lay out data are outside the modelled core.
- Strings are sequences of code points, where JavaScript uses UTF-16 code units. This only matters for `maxlength` on names outside the Basic Multilingual Plane.
- `toLowerCase` is modelled for Latin `A`-`Z` and Cyrillic U+0400-U+042F only. Other scripts keep their case.
- `parseInt` is modelled on unbounded integers. Precision loss above 2^53 is not modelled.
- Timestamps are a `now` argument, one per request, and ids are a counter. Mongo's ObjectIds and `updatedAt` are not modelled.
- ArtworksRoute.Matching: artworks with equal `createdAt` may come back in any order. The model promises only a sorted permutation, because Mongo does not fix the order of ties.
- The unique indexes are modelled as a check against every stored name and slug. Index builds, collation and races between requests are not modelled.
- Concurrency is not modelled. Every request runs alone against the store.
- CategoryModel.Validate: a JSON value of the wrong type, such as `"order": "abc"`, is not modelled. The input type has an integer `order` and string `name` and `description`, so the cast error Mongoose would report under that path cannot arise.
- UserModel.Validate: a JSON value of the wrong type, such as `"email": {}` or a non-boolean `isAdmin`, is not modelled, nor is the cast error Mongoose reports for it.
- ArtworkModel.Validate: a JSON value of the wrong type for `year`, `price`, `categories` or the two flags is not modelled. Such a value gets a cast error; a numeric string such as `"12"` would be cast and stored as the number 12.
- ArtworkModel.PriceIrrelevant: holds among integer prices only. A non-numeric price fails with a cast error, which the model does not represent.
- CategoriesRoute.Post: the 400 answer for a cast error on a wrongly typed field is not modelled, because the request body is typed.
- ArtworksRoute.Post: the 400 answer for a cast error on a wrongly typed field is not modelled, because the request body is typed.
- URL encoding of query values (`URLSearchParams`, template strings) is not modelled. Keys and values are taken as they are written.
- `URL.createObjectURL`, `window.confirm`, `alert` and `router.push` are outside the model. A chosen file's object URL and the user's confirmation are parameters, and navigation is the boolean result of `HandleSubmit`.
- The one-second `setTimeout` in `handleSubmit` is not modelled.
- The pages' mock category arrays are not modelled.
- The pages' `useEffect` fetches, with their `isLoading` and `error` state on the list pages, are not modelled.
- The filter panel's `isFilterOpen` with `toggleFilter`, and the admin page's individual filter input setters, are not modelled.
- The admin categories page calls `PUT` and `DELETE` on `/api/categories`, which that route does not define. Those calls are not modelled.
- AddNewLoop.AddSeeds: says nothing about the result for an unreachable database when the seed list is empty. The loop then makes no call, so it reports success.

/**
 * What the route handlers answer: a status and a JSON body, and the loop
 * the create routes use to copy a validation error's messages into the
 * response.
 */
module Http {
  import opened Wrappers
  import opened Store
  import opened CategoryModel
  import opened ArtworkModel

  const Ok: nat := 200
  const Created: nat := 201
  const BadRequest: nat := 400
  const Unauthorized: nat := 401
  const ServerError: nat := 500

  /** The JSON bodies the routes send. */
  datatype Json =
    | CategoryList(categories: seq<Document<CategoryFields>>)
    | CategoryDoc(category: Document<CategoryFields>)
    | ArtworkList(artworks: seq<Document<ArtworkFields>>)
    | ArtworkDoc(artwork: Document<ArtworkFields>)
    | ErrorBody(error: string)
    | ValidationBody(error: string, validationErrors: map<string, string>)
    | SeedReport(message: string, seeds: seq<CategorySeed>)
    | CategoryReport(message: string, categories: seq<Document<CategoryFields>>)
    | CountReport(count: nat, categories: seq<Document<CategoryFields>>)
    | MessageBody(message: string)
    | LoginBody(success: bool, message: string)

  datatype Response = Response(status: nat, body: Json)

  /** The `error` text of every validation failure. */
  const ValidationFailed := "Ошибка валидации"

  /**
   * `for (const field in error.errors) validationErrors[field] = error.errors[field].message`:
   * the response carries every failing path with its message, and nothing else.
   */
  method CollectValidationErrors(errors: map<string, string>) returns (validationErrors: map<string, string>)
    ensures validationErrors == errors
  {
    validationErrors := map[];
    var remaining := errors.Keys;
    while remaining != {}
      invariant remaining <= errors.Keys
      invariant forall k :: k in validationErrors <==> k in errors && k !in remaining
      invariant forall k :: k in validationErrors ==> validationErrors[k] == errors[k]
      decreases remaining
    {
      var field :| field in remaining;
      validationErrors := validationErrors[field := errors[field]];
      remaining := remaining - {field};
    }
  }
}

/**
 * `POST /api/auth/login`: the request's `email` and `password` are compared
 * with a fixed pair; nothing is stored and no session or token is issued.
 */
module LoginRoute {
  import opened Wrappers
  import opened Http

  const AdminEmail := "123"
  const AdminPassword := "456"
  const LoginSucceeded := "Успешная аутентификация"
  const WrongCredentials := "Неверный логин или пароль"
  const LoginFailed := "Ошибка при входе"

  /** A JSON value under a key of the request body, as far as `===` can tell them apart. */
  datatype JsonValue = JString(s: string) | JNumber(n: int) | JOther

  /**
   * What `await req.json()` produces: text that is not JSON, `null`, an
   * object, or any other JSON value (an array, a string, a number, a boolean).
   */
  datatype Body = NotJson | JsonNull | JsonObject(fields: map<string, JsonValue>) | JsonOther

  /** Destructuring `{ email, password }`: a missing key, or any non-object, gives `undefined` (`None`). */
  function Member(body: Body, key: string): (r: Option<JsonValue>)
    requires !body.NotJson? && !body.JsonNull?
    ensures r.Some? <==> body.JsonObject? && key in body.fields
  {
    if body.JsonObject? && key in body.fields then Some(body.fields[key]) else None
  }

  /** The strict comparison `email === '123' && password === '456'`. */
  predicate Admitted(body: Body)
    requires !body.NotJson? && !body.JsonNull?
  {
    Member(body, "email") == Some(JString(AdminEmail)) && Member(body, "password") == Some(JString(AdminPassword))
  }

  /**
   * The response. A body that does not parse, and `null`, which cannot be
   * destructured, throw into the `catch` and get 500.
   */
  function Post(body: Body): (r: Response)
    ensures r.status == Ok <==> (body.JsonObject? && "email" in body.fields && "password" in body.fields &&
                                 body.fields["email"] == JString("123") && body.fields["password"] == JString("456"))
    ensures r.status == Ok ==> r.body == LoginBody(true, LoginSucceeded)
    ensures r.status == ServerError <==> body.NotJson? || body.JsonNull?
    ensures r.status == ServerError ==> r.body == ErrorBody(LoginFailed)
    ensures r.status in {Ok, Unauthorized, ServerError}
    ensures r.status == Unauthorized ==> r.body == ErrorBody(WrongCredentials)
  {
    if body.NotJson? || body.JsonNull? then Response(ServerError, ErrorBody(LoginFailed))
    else if Admitted(body) then Response(Ok, LoginBody(true, LoginSucceeded))
    else Response(Unauthorized, ErrorBody(WrongCredentials))
  }

  /** The number 123 is not the string '123', and padding is not trimmed: both get 401. */
  lemma StrictComparison(password: JsonValue)
    ensures Post(JsonObject(map["email" := JNumber(123), "password" := password])).status == Unauthorized
    ensures Post(JsonObject(map["email" := JString(" 123"), "password" := password])).status == Unauthorized
  {
    var e := map["email" := JString(" 123"), "password" := password];
    assert e["email"] != JString("123") by {
      assert e["email"].s[0] != "123"[0];
    }
  }

  /** Extra keys in the body do not matter. */
  lemma ExtraKeysIgnored(fields: map<string, JsonValue>, key: string, v: JsonValue)
    requires key != "email" && key != "password"
    ensures Post(JsonObject(fields[key := v])) == Post(JsonObject(fields))
  {
  }
}

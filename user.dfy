/**
 * The User schema: name, e-mail and password validation, the `trim` and
 * `lowercase` setters on the e-mail, the `isAdmin` default, and the
 * pre-save hook that re-hashes the password only when it was modified.
 */
module UserModel {
  import opened Wrappers
  import opened Text
  import opened Validation
  import Email

  /** A registration's fields, as supplied. */
  datatype UserInput = UserInput(name: Option<string>, email: Option<string>, password: Option<string>, isAdmin: Option<bool>)

  /** The fields of a user that passed validation. */
  datatype UserFields = UserFields(name: string, email: string, password: string, isAdmin: bool)

  /** The paths that carry a validator. */
  datatype Path = Name | EmailPath | Password
  {
    function Key(): string {
      match this
      case Name => "name"
      case EmailPath => "email"
      case Password => "password"
    }
  }

  const MaxNameLength: nat := 50
  const MinPasswordLength: nat := 6
  const NameRequired := "Пожалуйста, укажите имя"
  const NameTooLong := "Имя не может быть длиннее 50 символов"
  const EmailRequired := "Пожалуйста, укажите email"
  const EmailInvalid := "Пожалуйста, укажите корректный email"
  const PasswordRequired := "Пожалуйста, укажите пароль"
  const PasswordTooShort := "Пароль должен содержать минимум 6 символов"

  /** Mongoose's `required` on a string path: absent and empty both fail. */
  predicate Present(v: Option<string>) {
    v.Some? && v.value != ""
  }

  /** The e-mail setters: `trim` and `lowercase`, in either order. */
  function NormalizeEmail(e: string): string {
    Lower(Trim(e))
  }

  function NormalizedEmail(input: UserInput): Option<string> {
    match input.email
    case None => None
    case Some(e) => Some(NormalizeEmail(e))
  }

  function TrimmedName(input: UserInput): Option<string> {
    match input.name
    case None => None
    case Some(n) => Some(Trim(n))
  }

  /**
   * The first failing validator of a path: `required` first, then
   * `maxlength`, `match` or `minlength`. The `match` validator lets an
   * empty value through, but `required` has already reported it.
   */
  function PathError(input: UserInput, path: Path): Option<string> {
    match path
    case Name =>
      var n := TrimmedName(input);
      if !Present(n) then Some(NameRequired)
      else if |n.value| > MaxNameLength then Some(NameTooLong)
      else None
    case EmailPath =>
      var e := NormalizedEmail(input);
      if !Present(e) then Some(EmailRequired)
      else if !Email.IsEmail(e.value) then Some(EmailInvalid)
      else None
    case Password =>
      if !Present(input.password) then Some(PasswordRequired)
      else if |input.password.value| < MinPasswordLength then Some(PasswordTooShort)
      else None
  }

  /** Every path of the schema. */
  const AllPaths: set<Path> := {Name, EmailPath, Password}

  lemma EveryPathListed()
    ensures forall p: Path :: p in AllPaths
  {
    forall p: Path ensures p in AllPaths {
      match p
      case Name =>
      case EmailPath =>
      case Password =>
    }
  }

  /** Every failing path with the message of its first failing validator. */
  function Errors(input: UserInput): (m: map<Path, string>)
    ensures forall p: Path :: p in m <==> PathError(input, p).Some?
    ensures forall p: Path :: p in m ==> m[p] == PathError(input, p).value
  {
    EveryPathListed();
    FailingPaths(AllPaths, p => PathError(input, p))
  }

  /**
   * Setters, then validators. The name is trimmed and 1 to 50 characters;
   * the e-mail is trimmed, lower-cased and matches the pattern; the
   * password is stored untrimmed and has at least 6 characters; `isAdmin`
   * defaults to false.
   */
  function Validate(input: UserInput): (r: Result<UserFields, map<Path, string>>)
    ensures r.Success? <==>
      Present(TrimmedName(input)) && |Trim(input.name.value)| <= MaxNameLength &&
      Present(NormalizedEmail(input)) && Email.IsEmail(NormalizeEmail(input.email.value)) &&
      Present(input.password) && |input.password.value| >= MinPasswordLength
    ensures r.Success? ==> r.value == UserFields(Trim(input.name.value), NormalizeEmail(input.email.value), input.password.value, input.isAdmin.GetOr(false))
    ensures r.Failure? ==> r.error == Errors(input)
  {
    if PathError(input, Name).None? && PathError(input, EmailPath).None? && PathError(input, Password).None? then
      Success(UserFields(Trim(input.name.value), NormalizeEmail(input.email.value), input.password.value, input.isAdmin.GetOr(false)))
    else
      Failure(Errors(input))
  }

  /** Applying the two e-mail setters in the other order gives the same address. */
  lemma SetterOrderIrrelevant(e: string)
    ensures NormalizeEmail(e) == Trim(Lower(e))
  {
    LowerTrimCommute(e);
  }

  /** Addresses that differ only in letter case are stored identically, so they collide on the unique e-mail index. */
  lemma EmailCaseCollision(a: string)
    ensures NormalizeEmail(Lower(a)) == NormalizeEmail(a)
  {
    LowerTrimCommute(a);
    LowerTrimCommute(Lower(a));
    LowerIdempotent(a);
  }

  /** A stored e-mail address satisfies the pattern, with all of its traits. */
  lemma StoredEmailTraits(input: UserInput)
    requires Validate(input).Success?
    ensures Email.Matches(Validate(input).value.email)
    ensures Email.Traits(Validate(input).value.email)
  {
    Email.MatchesIff(Validate(input).value.email);
    Email.EmailIffTraits(Validate(input).value.email);
  }

  /** Each path is reported exactly when its first failing validator says so. */
  lemma ReportedIff(input: UserInput, path: Path)
    ensures Validate(input).Failure? ==> (path in Validate(input).error <==> PathError(input, path).Some?)
    ensures Validate(input).Failure? && path in Validate(input).error ==> Validate(input).error[path] == PathError(input, path).value
    ensures PathError(input, path).Some? ==> Validate(input).Failure?
  {
  }

  /** A password of five characters is too short, whatever else the request holds. */
  lemma ShortPasswordRejected(input: UserInput)
    requires input.password.Some? && 0 < |input.password.value| < MinPasswordLength
    ensures Validate(input).Failure?
    ensures Validate(input).error[Password] == PasswordTooShort
  {
  }

  /** The password is compared as sent: six spaces pass `minlength`. */
  lemma PasswordNotTrimmed()
    ensures PathError(UserInput(None, None, Some("      "), None), Password).None?
  {
  }

  /**
   * A user document. `passwordModified` is Mongoose's `isModified('password')`;
   * the hash function stands for bcrypt with a fresh salt.
   */
  class UserDocument {
    var fields: UserFields
    var passwordModified: bool

    /** A new document: every path counts as modified. */
    constructor (fields: UserFields)
      ensures this.fields == fields && passwordModified
    {
      this.fields := fields;
      passwordModified := true;
    }

    /** Assigning the password marks it modified. */
    method SetPassword(password: string)
      modifies this
      ensures fields == old(fields).(password := password) && passwordModified
    {
      fields := fields.(password := password);
      passwordModified := true;
    }

    /** The pre-save hook: hash the password only if it was modified; nothing else changes. */
    method PreSave(hash: string -> string)
      modifies this
      ensures old(passwordModified) ==> fields == old(fields).(password := hash(old(fields).password))
      ensures !old(passwordModified) ==> fields == old(fields)
      ensures passwordModified == old(passwordModified)
    {
      if !passwordModified {
        return;
      }
      fields := fields.(password := hash(fields.password));
    }

    /** A document once written, or loaded from the collection: no path counts as modified. */
    method Saved()
      modifies this
      ensures fields == old(fields) && !passwordModified
    {
      passwordModified := false;
    }

    /** `save()`: the pre-save hook, then the write, after which the password counts as unmodified. */
    method Save(hash: string -> string)
      modifies this
      ensures fields == if old(passwordModified) then old(fields).(password := hash(old(fields).password)) else old(fields)
      ensures !passwordModified
    {
      PreSave(hash);
      Saved();
    }

    /**
     * Saving again without assigning the password does not hash the hash:
     * the password is hashed at most once.
     */
    method SaveTwice(hash: string -> string)
      modifies this
      ensures fields == if old(passwordModified) then old(fields).(password := hash(old(fields).password)) else old(fields)
      ensures !passwordModified
    {
      Save(hash);
      ghost var once := fields;
      Save(hash);
      assert fields == once;
    }
  }
}

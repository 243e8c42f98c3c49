/** `RequestResetPasswordSerializer` (`reset_password/serializers.py`): the
    email of a reset request must belong to a registered user, and a token
    may be generated only once the data has been validated. */
module ResetPassword {
  import opened Wrappers
  import opened TextFields

  datatype ValidationError =
    | EmailRequired
      /** "This field may not be blank." */
    | EmailBlank
      /** "Null characters are not allowed." */
    | EmailNullCharacter
    | InvalidEmail
      /** "User with email ... does not exists" */
    | NoSuchUser(email: string)

  /** `validate_email`: the value itself when some user has exactly that
      email. */
  function ValidateEmail(value: string, registered: set<string>): (r: Result<string, ValidationError>)
    ensures r.Ok? <==> value in registered
    ensures r.Ok? ==> r.value == value
    ensures r.Err? ==> r.error == NoSuchUser(value)
  {
    if value !in registered then Err(NoSuchUser(value)) else Ok(value)
  }

  /** Validation of the request data: the required `email` field is
      trimmed, may not be blank and may not contain the NUL character (the
      `CharField` rules `EmailField` inherits), the trimmed text must pass
      the format check `wellFormed`,
      and then `validate_email` looks it up. */
  function Validate(data: map<string, string>, wellFormed: string -> bool, registered: set<string>)
    : (r: Result<map<string, string>, ValidationError>)
    ensures r == Err(EmailRequired) <==> "email" !in data
    ensures r == Err(EmailBlank) <==> "email" in data && AllSpace(data["email"])
    ensures r == Err(EmailNullCharacter) <==>
      "email" in data && !AllSpace(data["email"]) && '\0' in Strip(data["email"])
    ensures r.Ok? <==>
      "email" in data && !AllSpace(data["email"]) && '\0' !in Strip(data["email"]) &&
      wellFormed(Strip(data["email"])) && Strip(data["email"]) in registered
    ensures r.Ok? ==> r.value == map["email" := Strip(data["email"])]
    ensures r.Err? && r.error.NoSuchUser? ==> "email" in data && r.error.email == Strip(data["email"])
  {
    if "email" !in data then Err(EmailRequired)
    else match CharFieldValue(data["email"], false, None, None)
      case Err(e) => if e == Blank then Err(EmailBlank) else Err(EmailNullCharacter)
      case Ok(email) =>
        if !wellFormed(email) then Err(InvalidEmail)
        else match ValidateEmail(email, registered)
          case Err(e) => Err(e)
          case Ok(email) => Ok(map["email" := email])
  }

  /** Whitespace around a non-blank email changes nothing: the request is
      validated exactly as the bare address would be. */
  lemma PaddedEmailValidatesAsBare(pre: string, email: string, post: string,
                                   wellFormed: string -> bool, registered: set<string>)
    requires AllSpace(pre) && AllSpace(post) && Unpadded(email) && email != []
    ensures Validate(map["email" := pre + email + post], wellFormed, registered) ==
            Validate(map["email" := email], wellFormed, registered)
  {
    StripPadded(pre, email, post);
    StripUnpadded(email);
    assert email[0] in email;
  }

  datatype GenerateError =
    | AssertionError
    | KeyError(key: string)
      /** `User.DoesNotExist` */
    | DoesNotExist

  /** `generate_token` given the serializer's `_validated_data` (None before
      `is_valid` ran), the users by email, and the generator's `make_token`. */
  function GenerateTokenFrom<U>(validated: Option<map<string, string>>, usersByEmail: map<string, U>,
                                makeToken: U -> string): (r: Result<string, GenerateError>)
    ensures validated.None? <==> r == Err(AssertionError)
    ensures validated.Some? && "email" !in validated.value <==> r == Err(KeyError("email"))
    ensures r.Ok? <==>
      validated.Some? && "email" in validated.value && validated.value["email"] in usersByEmail
    ensures r.Ok? ==> r.value == makeToken(usersByEmail[validated.value["email"]])
  {
    if validated.None? then Err(AssertionError)
    else if "email" !in validated.value then Err(KeyError("email"))
    else if validated.value["email"] !in usersByEmail then Err(DoesNotExist)
    else Ok(makeToken(usersByEmail[validated.value["email"]]))
  }

  class RequestResetPasswordSerializer {
    /** `data=` */
    const initialData: map<string, string>
    /** `_validated_data`: absent until `is_valid` runs. */
    var validatedData: Option<map<string, string>>

    constructor (data: map<string, string>)
      ensures initialData == data && validatedData.None?
    {
      initialData := data;
      validatedData := None;
    }

    /** `is_valid()`: the first call validates, and on failure sets the
        validated data to `{}`; later calls validate nothing and repeat the
        first answer, which is whether errors were recorded (a successful
        validation always holds `email`, so the map is not empty). */
    method IsValid(wellFormed: string -> bool, registered: set<string>) returns (ok: bool)
      modifies this
      ensures old(validatedData).None? ==>
        && (ok <==> Validate(initialData, wellFormed, registered).Ok?)
        && (ok ==> validatedData == Some(map["email" := Strip(initialData["email"])]))
        && (!ok ==> validatedData == Some(map[]))
      ensures old(validatedData).Some? ==>
        validatedData == old(validatedData) && (ok <==> old(validatedData).value != map[])
    {
      if validatedData.Some? {
        return validatedData.value != map[];
      }
      var r := Validate(initialData, wellFormed, registered);
      if r.Ok? {
        validatedData := Some(r.value);
        return true;
      }
      validatedData := Some(map[]);
      return false;
    }

    /** `generate_token`: AssertionError before `is_valid` ran, otherwise
        the token of the user whose email was validated. */
    function GenerateToken<U>(usersByEmail: map<string, U>, makeToken: U -> string): (r: Result<string, GenerateError>)
      reads this
      ensures r == Err(AssertionError) <==> validatedData.None?
      ensures r.Ok? <==>
        validatedData.Some? && "email" in validatedData.value && validatedData.value["email"] in usersByEmail
      ensures r.Ok? ==> r.value == makeToken(usersByEmail[validatedData.value["email"]])
    {
      GenerateTokenFrom(validatedData, usersByEmail, makeToken)
    }
  }

  /** Validation against the registered users, then generation against the
      same users, yields the token of the user with the requested email;
      after a failed validation generation raises KeyError, not
      AssertionError. */
  lemma ValidateThenGenerate<U>(data: map<string, string>, wellFormed: string -> bool,
                                usersByEmail: map<string, U>, makeToken: U -> string)
    ensures var v := Validate(data, wellFormed, usersByEmail.Keys);
      && (v.Ok? ==> GenerateTokenFrom(Some(v.value), usersByEmail, makeToken) == Ok(makeToken(usersByEmail[Strip(data["email"])])))
      && (v.Err? ==> GenerateTokenFrom(Some(map[]), usersByEmail, makeToken) == Err(KeyError("email")))
  {
  }
}

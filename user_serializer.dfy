/** `UserSerializer` (`users/serializers.py`): the field rules applied to
    incoming user data, and `update`, which writes validated data into a
    user, routing the password through `set_password`. */
module UserSerializers {
  import opened Wrappers
  import opened Users
  import opened TextFields

  /** `read_only_fields`: input for these is ignored. */
  const ReadOnlyFields: set<string> := {"uuid"}

  /** The declared fields that accept input. */
  const WritableFields: set<string> := {"first_name", "last_name", "password", "email"}

  /** Fields a full (non-partial) validation insists on: the model columns
      that may not be blank. */
  const RequiredFields: set<string> := {"email", "password"}

  /** `extra_kwargs["password"]["min_length"]` */
  const PasswordMinLength: nat := 6

  /** The `max_length` the password column inherits from Django's
      `AbstractBaseUser`. */
  const PasswordMaxLength: nat := 128

  /** The `max_length` of the `first_name`, `last_name` and `email`
      columns. */
  const TextMaxLength: nat := 255

  /** Why a field's input is refused: not a string ("Not a valid string."),
      one of the `CharField` rules, `validate_password`'s missing digit, or
      one of the e-mail's validators: EmailValidator ("Enter a valid email
      address.") and the UniqueValidator that `unique=True` adds. */
  datatype InputError = NotText | FieldRule(rule: FieldError) | NoDigit | NotAnEmail | EmailInUse

  predicate IsDigit(c: char) {
    '0' <= c <= '9'
  }

  /** `any(char.isdigit() for char in value)` */
  function AnyDigit(s: string): (r: bool)
    ensures r <==> exists i :: 0 <= i < |s| && IsDigit(s[i])
  {
    if s == [] then false
    else if IsDigit(s[0]) then true
    else
      var rest := AnyDigit(s[1..]);
      assert forall i :: 1 <= i < |s| ==> s[i] == s[1..][i - 1];
      rest
  }

  /** `validate_password`: a password without a digit is refused; any other
      is returned unchanged. */
  function ValidatePassword(value: string): (r: Result<string, InputError>)
    ensures r.Ok? <==> exists i :: 0 <= i < |value| && IsDigit(value[i])
    ensures r.Ok? ==> r.value == value
    ensures r.Err? ==> r.error == NoDigit
  {
    if !AnyDigit(value) then Err(NoDigit) else Ok(value)
  }

  /** The password field as validation runs it: the `CharField` rules
      first (surrounding whitespace trimmed, blank refused, between 6 and
      128 characters, no NUL character), then `validate_password` on the
      trimmed text. */
  function PasswordValidation(value: string): (r: Result<string, InputError>)
    ensures r == Err(FieldRule(Blank)) <==> AllSpace(value)
    ensures r == Err(FieldRule(TooLong)) <==> |Strip(value)| > PasswordMaxLength
    ensures r == Err(FieldRule(TooShort)) <==> 0 < |Strip(value)| < PasswordMinLength
    ensures r == Err(FieldRule(NullCharacter)) <==>
      PasswordMinLength <= |Strip(value)| <= PasswordMaxLength && '\0' in Strip(value)
    ensures r.Ok? <==>
      PasswordMinLength <= |Strip(value)| <= PasswordMaxLength && '\0' !in Strip(value) &&
      exists i :: 0 <= i < |Strip(value)| && IsDigit(Strip(value)[i])
    ensures r.Ok? ==> r.value == Strip(value)
  {
    match CharFieldValue(value, false, Some(PasswordMaxLength), Some(PasswordMinLength))
    case Err(e) => Err(FieldRule(e))
    case Ok(text) => ValidatePassword(text)
  }

  /** The three passwords the serializer's own test data uses. */
  lemma PasswordExamples()
    ensures PasswordValidation("inv12") == Err(FieldRule(TooShort))
    ensures PasswordValidation("invalid") == Err(NoDigit)
    ensures PasswordValidation("password123") == Ok("password123")
  {
    ShortPasswordRefused();
    DigitlessPasswordRefused();
    PasswordWithDigitAccepted();
  }

  lemma ShortPasswordRefused()
    ensures PasswordValidation("inv12") == Err(FieldRule(TooShort))
  {
    StripUnpadded("inv12");
  }

  lemma DigitlessPasswordRefused()
    ensures PasswordValidation("invalid") == Err(NoDigit)
  {
    var s := "invalid";
    assert forall i :: 0 <= i < |s| ==> !IsDigit(s[i]);
    UnpaddedPassword(s);
  }

  lemma PasswordWithDigitAccepted()
    ensures PasswordValidation("password123") == Ok("password123")
  {
    var s := "password123";
    assert IsDigit(s[8]);
    UnpaddedPassword(s);
  }

  /** A password without surrounding whitespace is checked as it stands. */
  lemma UnpaddedPassword(s: string)
    requires Unpadded(s) && PasswordMinLength <= |s| <= PasswordMaxLength && '\0' !in s
    ensures PasswordValidation(s) == ValidatePassword(s)
  {
    StripUnpadded(s);
  }

  /** Trailing whitespace is trimmed before the rules apply: it neither
      makes a short password long enough nor stays in an accepted one. */
  lemma TrimmedPasswordExamples()
    ensures PasswordValidation("12345 ") == Err(FieldRule(TooShort))
    ensures PasswordValidation("abc123 ") == Ok("abc123")
  {
    PaddedShortPasswordRefused();
    PaddedPasswordTrimmed();
  }

  lemma PaddedShortPasswordRefused()
    ensures PasswordValidation("12345 ") == Err(FieldRule(TooShort))
  {
    assert [] + "12345" + " " == "12345 ";
    StripPadded([], "12345", " ");
  }

  lemma PaddedPasswordTrimmed()
    ensures PasswordValidation("abc123 ") == Ok("abc123")
  {
    assert [] + "abc123" + " " == "abc123 ";
    StripPadded([], "abc123", " ");
    assert IsDigit("abc123"[3]);
  }

  /** `CharField` input for a writable field: names are optional and may be
      blank, the email may not; both hold at most 255 characters; the
      password follows `PasswordValidation`. The e-mail (an `EmailField`)
      must then pass the format check `wellFormed` and be held by no other
      user: `taken` is the set of e-mails the UniqueValidator finds in the
      table, without the instance being updated. The accepted value is the
      trimmed text. */
  function CheckField(name: string, v: Value, wellFormed: string -> bool, taken: set<string>)
    : (r: Result<Value, InputError>)
    requires name in WritableFields
    ensures !v.Text? ==> r == Err(NotText)
    ensures r.Ok? ==> v.Text? && r.value == Text(Strip(v.text))
    ensures r.Ok? ==> |r.value.text| <= if name == "password" then PasswordMaxLength else TextMaxLength
    ensures v.Text? && (name == "first_name" || name == "last_name") ==>
      (r.Ok? <==> |Strip(v.text)| <= TextMaxLength && '\0' !in Strip(v.text))
    ensures v.Text? && name == "email" ==>
      (r.Ok? <==>
        && !AllSpace(v.text) && |Strip(v.text)| <= TextMaxLength && '\0' !in Strip(v.text)
        && wellFormed(Strip(v.text)) && Strip(v.text) !in taken)
    ensures name == "email" && r == Err(EmailInUse) ==> Strip(v.text) in taken
    ensures v.Text? && name == "password" ==> (r.Ok? <==> PasswordValidation(v.text).Ok?)
  {
    if !v.Text? then Err(NotText)
    else
      var checked :=
        if name == "password" then PasswordValidation(v.text)
        else match CharFieldValue(v.text, name != "email", Some(TextMaxLength), None)
          case Err(e) => Err(FieldRule(e))
          case Ok(text) =>
            if name != "email" then Ok(text)
            else if !wellFormed(text) then Err(NotAnEmail)
            else if text in taken then Err(EmailInUse)
            else Ok(text);
      match checked
      case Err(e) => Err(e)
      case Ok(text) => Ok(Text(text))
  }

  /** Text carrying the NUL character is refused by every field, after
      the length rules and before `validate_password`. */
  lemma NullCharacterRefused(wellFormed: string -> bool, taken: set<string>)
    ensures PasswordValidation("abc12\0") == Err(FieldRule(NullCharacter))
    ensures CheckField("first_name", Text("a\0"), wellFormed, taken) == Err(FieldRule(NullCharacter))
  {
    StripUnpadded("abc12\0");
    StripUnpadded("a\0");
    assert "abc12\0"[5] == '\0' && "a\0"[1] == '\0';
  }

  /** A writable field's value is acceptable. */
  predicate FieldValid(name: string, v: Value, wellFormed: string -> bool, taken: set<string>)
    requires name in WritableFields
  {
    CheckField(name, v, wellFormed, taken).Ok?
  }

  /** A writable field that fails: present with an unacceptable value, or
      required and absent in a full validation. */
  predicate FieldFails(data: map<string, Value>, partial: bool, wellFormed: string -> bool, taken: set<string>,
                       name: string) {
    name in WritableFields &&
    ((name in data && !FieldValid(name, data[name], wellFormed, taken)) ||
     (!partial && name in RequiredFields && name !in data))
  }

  /** The writable fields in error. */
  function FailingFields(data: map<string, Value>, partial: bool, wellFormed: string -> bool, taken: set<string>)
    : (failing: set<string>)
    ensures forall f :: f in failing <==> f in WritableFields && FieldFails(data, partial, wellFormed, taken, f)
  {
    set f | f in WritableFields && FieldFails(data, partial, wellFormed, taken, f)
  }

  /** The writable fields of the input, each as its field accepted it. */
  function AcceptedValues(data: map<string, Value>, wellFormed: string -> bool, taken: set<string>)
    : (m: map<string, Value>)
    requires forall f :: f in data.Keys * WritableFields ==> CheckField(f, data[f], wellFormed, taken).Ok?
    ensures m.Keys == data.Keys * WritableFields
    ensures forall f :: f in m ==> data[f].Text? && m[f] == Text(Strip(data[f].text))
  {
    map f | f in data.Keys * WritableFields :: CheckField(f, data[f], wellFormed, taken).value
  }

  /** `is_valid()`: either the validated data (the writable fields of the
      input, each as its field accepted it, read-only input dropped), or the
      set of fields in error. */
  function ValidatedData(data: map<string, Value>, partial: bool, wellFormed: string -> bool, taken: set<string>)
    : (r: Result<map<string, Value>, set<string>>)
    ensures r.Ok? <==> forall f :: f in WritableFields ==> !FieldFails(data, partial, wellFormed, taken, f)
    ensures r.Ok? ==>
      && r.value.Keys == data.Keys * WritableFields
      && (forall f :: f in r.value ==> data[f].Text? && r.value[f] == Text(Strip(data[f].text)))
      && (!partial ==> RequiredFields <= r.value.Keys)
    ensures r.Err? ==> r.error == set f | f in WritableFields && FieldFails(data, partial, wellFormed, taken, f)
  {
    var failing := FailingFields(data, partial, wellFormed, taken);
    if failing == {} then
      assert forall f :: f in data.Keys * WritableFields ==> CheckField(f, data[f], wellFormed, taken).Ok? by {
        forall f | f in data.Keys * WritableFields
          ensures CheckField(f, data[f], wellFormed, taken).Ok?
        {
          assert f !in failing;
        }
      }
      assert !partial ==> RequiredFields <= data.Keys by {
        if !partial {
          forall f | f in RequiredFields
            ensures f in data
          {
            assert f in WritableFields && f !in failing;
          }
        }
      }
      Ok(AcceptedValues(data, wellFormed, taken))
    else
      assert exists f :: f in WritableFields && FieldFails(data, partial, wellFormed, taken, f) by {
        var f :| f in failing;
      }
      Err(failing)
  }

  /** Validated text carries no surrounding whitespace and fits its
      column: padding around an accepted value never reaches the user. */
  lemma ValidatedDataFitsColumns(data: map<string, Value>, partial: bool, wellFormed: string -> bool,
                                 taken: set<string>, f: string)
    requires ValidatedData(data, partial, wellFormed, taken).Ok?
    requires f in ValidatedData(data, partial, wellFormed, taken).value
    ensures var v := ValidatedData(data, partial, wellFormed, taken).value[f];
      v.Text? && Unpadded(v.text) &&
      |v.text| <= (if f == "password" then PasswordMaxLength else TextMaxLength)
  {
    var r := ValidatedData(data, partial, wellFormed, taken);
    assert f in WritableFields && f in data;
    assert !FieldFails(data, partial, wellFormed, taken, f);
  }

  /** A validated e-mail passed the format check and is held by no other
      user. */
  lemma ValidatedEmailIsFree(data: map<string, Value>, partial: bool, wellFormed: string -> bool,
                             taken: set<string>)
    requires ValidatedData(data, partial, wellFormed, taken).Ok?
    requires "email" in ValidatedData(data, partial, wellFormed, taken).value
    ensures var email := ValidatedData(data, partial, wellFormed, taken).value["email"];
      email.Text? && wellFormed(email.text) && email.text !in taken
  {
    assert "email" in WritableFields && "email" in data;
    assert !FieldFails(data, partial, wellFormed, taken, "email");
  }

  /** Input for the read-only `uuid` never reaches the validated data. */
  lemma UuidIsReadOnly(data: map<string, Value>, partial: bool, wellFormed: string -> bool, taken: set<string>)
    ensures var r := ValidatedData(data, partial, wellFormed, taken); r.Ok? ==> ReadOnlyFields !! r.value.Keys
  {
    assert "uuid" !in WritableFields;
  }

  /** The user after `update`: every validated key but `password` set as
      given, the password set through `set_password`, nothing else touched. */
  function UpdatedFields(fields: map<string, Value>, validated: map<string, Value>): map<string, Value> {
    fields + (map k | k in validated && k != "password" :: validated[k])
  }

  function UpdatedPassword(password: Password, validated: map<string, Value>): Password
    requires "password" in validated ==> validated["password"].Text?
  {
    if "password" in validated then SetPassword(Some(validated["password"].text)) else password
  }

  /** `update`: one `setattr` or `__update_password` per validated key, then
      a single save; the same instance is returned, or None when the save
      raises IntegrityError because another user holds the e-mail. */
  method Update(table: UserTable, instance: User, validatedData: map<string, Value>)
    returns (r: Option<User>)
    requires "password" in validatedData ==> validatedData["password"].Text?
    modifies table, instance
    ensures instance.fields == UpdatedFields(old(instance.fields), validatedData)
    ensures instance.password == UpdatedPassword(old(instance.password), validatedData)
    ensures r.Some? <==> !EmailClash(old(table.rows), instance.uuid, instance.fields)
    ensures r.Some? ==>
      && r.value == instance
      && table.rows == old(table.rows)[instance.uuid := UserRecord(instance.fields, instance.password)]
      && table.saves == old(table.saves) + [instance.uuid]
    ensures r.None? ==> table.rows == old(table.rows) && table.saves == old(table.saves)
    ensures old(table.Valid()) ==> table.Valid()
  {
    var remaining := validatedData.Keys;
    ghost var done: map<string, Value> := map[];
    while remaining != {}
      modifies instance
      invariant remaining <= validatedData.Keys
      invariant done.Keys == validatedData.Keys - remaining
      invariant forall k :: k in done ==> done[k] == validatedData[k]
      invariant instance.fields == UpdatedFields(old(instance.fields), done)
      invariant instance.password == UpdatedPassword(old(instance.password), done)
      decreases remaining
    {
      var key :| key in remaining;
      var value := validatedData[key];
      UpdateStep(old(instance.fields), old(instance.password), done, key, value);
      if key == "password" {
        UpdatePassword(instance, value.text);
      } else {
        instance.fields := instance.fields[key := value];
      }
      done := done[key := value];
      remaining := remaining - {key};
    }
    assert done == validatedData;
    var saved := table.Save(instance);
    if !saved {
      return None;
    }
    return Some(instance);
  }

  /** One more validated key applied to the result of the earlier ones. */
  lemma UpdateStep(fields: map<string, Value>, password: Password, done: map<string, Value>, key: string, value: Value)
    requires "password" in done ==> done["password"].Text?
    requires key == "password" ==> value.Text?
    ensures key != "password" ==>
      UpdatedFields(fields, done[key := value]) == UpdatedFields(fields, done)[key := value] &&
      UpdatedPassword(password, done[key := value]) == UpdatedPassword(password, done)
    ensures key == "password" ==>
      UpdatedFields(fields, done[key := value]) == UpdatedFields(fields, done) &&
      UpdatedPassword(password, done[key := value]) == SetPassword(Some(value.text))
  {
    var after := done[key := value];
    if key != "password" {
      assert (map k | k in after && k != "password" :: after[k]) ==
             (map k | k in done && k != "password" :: done[k])[key := value];
    } else {
      assert (map k | k in after && k != "password" :: after[k]) ==
             (map k | k in done && k != "password" :: done[k]);
    }
  }

  /** `__update_password` */
  method UpdatePassword(user: User, password: string)
    modifies user
    ensures user.password == SetPassword(Some(password)) && user.fields == old(user.fields)
    ensures CheckPassword(user.password, password)
  {
    user.password := SetPassword(Some(password));
  }

  /** After an update that carries a password, exactly that password is
      accepted, and fields the data does not mention keep their values. */
  lemma UpdateSetsPassword(fields: map<string, Value>, password: Password, validated: map<string, Value>,
                           attempt: string, other: string)
    requires "password" in validated && validated["password"].Text?
    requires other in fields && other !in validated
    ensures CheckPassword(UpdatedPassword(password, validated), attempt) <==> attempt == validated["password"].text
    ensures UpdatedFields(fields, validated)[other] == fields[other]
    ensures "password" in UpdatedFields(fields, validated) ==> "password" in fields
  {
  }
}

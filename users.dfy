/** The custom user model and its manager (`core/models/user.py`): users are
    identified by email, created through `_create_user`, which normalises
    the email, refuses an empty one, stores the password through
    `set_password` and saves the user once. */
module Users {
  import opened Wrappers
  import opened TextFields

  /** A column value: text, or a boolean flag. */
  datatype Value = Text(text: string) | Flag(flag: bool)

  /** The stored password column: empty (the model default), unusable
      (`set_password(None)`), or the hash of a raw password. The hash is
      represented by the raw text it was made from. */
  datatype Password = Empty | Unusable | Hashed(raw: string)

  /** `set_password(raw)` */
  function SetPassword(raw: Option<string>): (p: Password)
    ensures raw.None? ==> p == Unusable
    ensures raw.Some? ==> p.Hashed?
  {
    if raw.None? then Unusable else Hashed(raw.value)
  }

  /** `check_password(raw)`: only a hash made from the same text matches,
      and neither the empty nor the unusable password matches anything. */
  function CheckPassword(stored: Password, raw: string): (ok: bool)
    ensures ok <==> stored == SetPassword(Some(raw))
    ensures stored.Empty? || stored.Unusable? ==> !ok
  {
    stored.Hashed? && stored.raw == raw
  }

  /** After `set_password(raw)` exactly `raw` is accepted; after
      `set_password(None)` nothing is. */
  lemma SetPasswordThenCheck(raw: Option<string>, attempt: string)
    ensures CheckPassword(SetPassword(raw), attempt) <==> raw == Some(attempt)
  {
  }

  /** The column defaults of User (with PermissionsMixin's `is_superuser`). */
  const UserDefaults: map<string, Value> :=
    map["first_name" := Text(""), "last_name" := Text(""), "is_staff" := Flag(false),
        "is_active" := Flag(true), "is_superuser" := Flag(false)]

  /** The keyword arguments the model constructor accepts: the columns
      with defaults, the e-mail, the primary key, the join date and
      AbstractBaseUser's `last_login`. */
  const UserColumns: set<string> := UserDefaults.Keys + {"email", "uuid", "date_joined", "last_login"}

  /** The primary key of a new user: a `uuid` keyword overrides the
      generated `uuid4()`. */
  function PrimaryKey(generated: string, extraFields: map<string, Value>): (pk: string)
    requires "uuid" in extraFields ==> extraFields["uuid"].Text?
    ensures "uuid" !in extraFields ==> pk == generated
    ensures "uuid" in extraFields ==> pk == extraFields["uuid"].text
  {
    if "uuid" in extraFields then extraFields["uuid"].text else generated
  }

  datatype CreateError =
    | EmailNotSet
      /** The TypeError of an unexpected keyword argument to the model. */
    | UnexpectedKeyword(name: string)
      /** The IntegrityError of an INSERT whose primary key or e-mail is
          already in the table. */
    | IntegrityError

  class User {
    /** The primary key, generated with `uuid4` when the user is built. */
    const uuid: string
    var fields: map<string, Value>
    var password: Password

    /** `User(**kwargs)`: the defaults overridden by the arguments. */
    constructor (uuid: string, kwargs: map<string, Value>)
      ensures this.uuid == uuid && fields == UserDefaults + kwargs && password == Empty
    {
      this.uuid := uuid;
      fields := UserDefaults + kwargs;
      password := Empty;
    }
  }

  /** A saved user: its columns and its password. */
  datatype UserRecord = UserRecord(fields: map<string, Value>, password: Password)

  /** A row other than `pk` holds the e-mail `email`. */
  predicate EmailTaken(rows: map<string, UserRecord>, email: Value, pk: string) {
    exists k :: k in rows && k != pk && "email" in rows[k].fields && rows[k].fields["email"] == email
  }

  /** Writing `fields` under `pk` would repeat another row's e-mail. */
  predicate EmailClash(rows: map<string, UserRecord>, pk: string, fields: map<string, Value>) {
    "email" in fields && EmailTaken(rows, fields["email"], pk)
  }

  /** The `unique=True` constraint of the `email` column: no two rows hold
      the same e-mail. */
  predicate UniqueEmails(rows: map<string, UserRecord>) {
    forall a, b :: a in rows && b in rows && a != b && "email" in rows[a].fields && "email" in rows[b].fields ==>
      rows[a].fields["email"] != rows[b].fields["email"]
  }

  /** A write that clashes with no other row keeps the e-mails unique. */
  lemma WriteKeepsUniqueEmails(rows: map<string, UserRecord>, pk: string, record: UserRecord)
    requires UniqueEmails(rows) && !EmailClash(rows, pk, record.fields)
    ensures UniqueEmails(rows[pk := record])
  {
    var after := rows[pk := record];
    forall a, b | a in after && b in after && a != b && "email" in after[a].fields && "email" in after[b].fields
      ensures after[a].fields["email"] != after[b].fields["email"]
    {
      if a == pk {
        assert b in rows && b != pk;
      } else if b == pk {
        assert a in rows && a != pk;
      }
    }
  }

  /** The user table, and the primary keys of the saves, in order. */
  class UserTable {
    var rows: map<string, UserRecord>
    var saves: seq<string>

    /** The table's constraints hold: the primary key is the row's key by
        construction, and e-mails are unique. */
    predicate Valid()
      reads this
    {
      UniqueEmails(rows)
    }

    constructor ()
      ensures rows == map[] && saves == [] && Valid()
    {
      rows := map[];
      saves := [];
    }

    /** `user.save()` on a new instance whose primary key has a default:
        Django forces an INSERT, which raises IntegrityError when the
        primary key or the e-mail is already in the table. */
    method Insert(user: User) returns (ok: bool)
      modifies this
      ensures ok <==> user.uuid !in old(rows) && !EmailClash(old(rows), user.uuid, user.fields)
      ensures ok ==> rows == old(rows)[user.uuid := UserRecord(user.fields, user.password)]
      ensures ok ==> saves == old(saves) + [user.uuid]
      ensures !ok ==> rows == old(rows) && saves == old(saves)
      ensures old(Valid()) ==> Valid()
    {
      if user.uuid in rows || EmailClash(rows, user.uuid, user.fields) {
        return false;
      }
      if Valid() {
        WriteKeepsUniqueEmails(rows, user.uuid, UserRecord(user.fields, user.password));
      }
      rows := rows[user.uuid := UserRecord(user.fields, user.password)];
      saves := saves + [user.uuid];
      return true;
    }

    /** `user.save()` on a loaded instance: an UPDATE of its row (or an
        INSERT when the row is gone), which raises IntegrityError when
        another row holds the e-mail. */
    method Save(user: User) returns (ok: bool)
      modifies this
      ensures ok <==> !EmailClash(old(rows), user.uuid, user.fields)
      ensures ok ==> rows == old(rows)[user.uuid := UserRecord(user.fields, user.password)]
      ensures ok ==> saves == old(saves) + [user.uuid]
      ensures !ok ==> rows == old(rows) && saves == old(saves)
      ensures old(Valid()) ==> Valid()
    {
      if EmailClash(rows, user.uuid, user.fields) {
        return false;
      }
      if Valid() {
        WriteKeepsUniqueEmails(rows, user.uuid, UserRecord(user.fields, user.password));
      }
      rows := rows[user.uuid := UserRecord(user.fields, user.password)];
      saves := saves + [user.uuid];
      return true;
    }
  }

  /** `BaseUserManager.normalize_email`: `None` becomes the empty text; a
      text with an `@` is stripped and its part after the last `@` is
      lower-cased; any other text is returned as it was given. */
  function NormalizeEmail(email: Option<string>): (r: string)
    ensures r == "" <==> email.None? || email.value == ""
    ensures email.Some? && '@' !in Strip(email.value) ==> r == email.value
  {
    var given := if email.None? then "" else email.value;
    var stripped := Strip(given);
    match LastIndexOf(stripped, '@')
    case None => given
    case Some(i) => stripped[..i] + "@" + Lower(stripped[i + 1..])
  }

  /** The normalised text of a stripped address whose last `@` is at `i`:
      unpadded, with that `@` still the last one. */
  lemma NormalizedAt(stripped: string, i: nat)
    requires Unpadded(stripped) && i < |stripped| && stripped[i] == '@' && '@' !in stripped[i + 1..]
    ensures var r := stripped[..i] + "@" + Lower(stripped[i + 1..]);
      Unpadded(r) && LastIndexOf(r, '@') == Some(i) && r[..i] == stripped[..i] &&
      r[i + 1..] == Lower(stripped[i + 1..])
  {
    var domain := Lower(stripped[i + 1..]);
    var r := stripped[..i] + "@" + domain;
    assert r[..i] == stripped[..i] && r[i] == '@' && r[i + 1..] == domain;
    assert '@' !in domain by {
      forall k | 0 <= k < |domain|
        ensures domain[k] != '@'
      {
        assert stripped[i + 1..][k] != '@';
      }
    }
    LastIndexOfUnique(r, '@', i);
    assert r[0] == stripped[0];
    assert r[|r| - 1] == stripped[|stripped| - 1] || (r[|r| - 1] == LowerChar(stripped[|stripped| - 1]));
  }

  /** Lower-casing twice is lower-casing once. */
  lemma LowerIdempotent(s: string)
    ensures Lower(Lower(s)) == Lower(s)
  {
  }

  /** An address with an `@` keeps its stripped local part, and the part
      after its last `@` is in lower case. */
  lemma NormalizeEmailLowersDomain(email: string)
    requires '@' in Strip(email)
    ensures var r := NormalizeEmail(Some(email));
      LastIndexOf(r, '@').Some? &&
      var i := LastIndexOf(r, '@').value;
      r[..i] == Strip(email)[..i] && Lower(r[i + 1..]) == r[i + 1..]
  {
    var stripped := Strip(email);
    var i := LastIndexOf(stripped, '@').value;
    var r := stripped[..i] + "@" + Lower(stripped[i + 1..]);
    assert NormalizeEmail(Some(email)) == r;
    NormalizedAt(stripped, i);
    LowerIdempotent(stripped[i + 1..]);
  }

  /** Normalising an already normalised address changes nothing. */
  lemma NormalizeEmailIdempotent(email: Option<string>)
    ensures NormalizeEmail(Some(NormalizeEmail(email))) == NormalizeEmail(email)
  {
    var given := if email.None? then "" else email.value;
    var stripped := Strip(given);
    var r := NormalizeEmail(email);
    match LastIndexOf(stripped, '@')
    case None =>
      assert r == given;
    case Some(i) =>
      var domain := Lower(stripped[i + 1..]);
      assert r == stripped[..i] + "@" + domain;
      NormalizedAt(stripped, i);
      StripUnpadded(r);
      LowerIdempotent(stripped[i + 1..]);
      assert NormalizeEmail(Some(r)) == r[..i] + "@" + Lower(r[i + 1..]);
      assert r[..i] + "@" + Lower(r[i + 1..]) == r;
  }

  /** The INSERT of a new user with primary key `pk` and e-mail `email`
      would break neither the primary key nor the unique e-mail. */
  predicate Insertable(rows: map<string, UserRecord>, pk: string, email: string) {
    pk !in rows && !EmailTaken(rows, Text(email), pk)
  }

  /** Once a row holds an e-mail, no further user with that e-mail can be
      inserted, whatever its primary key. */
  lemma StoredEmailBlocksInsert(rows: map<string, UserRecord>, pk: string, record: UserRecord,
                                other: string, email: string)
    requires "email" in record.fields && record.fields["email"] == Text(email)
    ensures !Insertable(rows[pk := record], other, email)
  {
    var after := rows[pk := record];
    if other != pk {
      assert pk in after && after[pk].fields["email"] == Text(email);
    }
  }

  /** `_create_user`. `email` and `password` are named parameters, so
      `extraFields` can hold neither; `uuid` is the `uuid4()` the primary
      key defaults to, and a `uuid` keyword, which must be text, replaces
      it. */
  method CreateUserInternal(table: UserTable, uuid: string, email: Option<string>, password: Option<string>,
                            extraFields: map<string, Value>)
    returns (r: Result<User, CreateError>)
    requires "email" !in extraFields && "password" !in extraFields
    requires "uuid" in extraFields ==> extraFields["uuid"].Text?
    modifies table
    ensures NormalizeEmail(email) == "" <==> r == Err(EmailNotSet)
    ensures r.Err? && r.error.UnexpectedKeyword? ==>
      r.error.name in extraFields && r.error.name !in UserColumns
    ensures r == Err(IntegrityError) <==>
      NormalizeEmail(email) != "" && extraFields.Keys <= UserColumns &&
      !Insertable(old(table.rows), PrimaryKey(uuid, extraFields), NormalizeEmail(email))
    ensures r.Err? ==> table.rows == old(table.rows) && table.saves == old(table.saves)
    ensures r.Ok? <==>
      NormalizeEmail(email) != "" && extraFields.Keys <= UserColumns &&
      Insertable(old(table.rows), PrimaryKey(uuid, extraFields), NormalizeEmail(email))
    ensures r.Ok? ==>
      && fresh(r.value) && r.value.uuid == PrimaryKey(uuid, extraFields)
      && r.value.fields == (UserDefaults + (extraFields - {"uuid"}))["email" := Text(NormalizeEmail(email))]
      && r.value.password == SetPassword(password)
      && table.rows == old(table.rows)[r.value.uuid := UserRecord(r.value.fields, r.value.password)]
      && table.saves == old(table.saves) + [r.value.uuid]
    ensures old(table.Valid()) ==> table.Valid()
  {
    var normalized := NormalizeEmail(email);
    if normalized == "" {
      return Err(EmailNotSet);
    }
    if !(extraFields.Keys <= UserColumns) {
      var name :| name in extraFields && name !in UserColumns;
      return Err(UnexpectedKeyword(name));
    }
    var kwargs := (extraFields - {"uuid"})["email" := Text(normalized)];
    DefaultsThenKeywords(extraFields - {"uuid"}, "email", Text(normalized));
    var user := new User(PrimaryKey(uuid, extraFields), kwargs);
    user.password := SetPassword(password);
    assert user.fields["email"] == Text(normalized);
    var inserted := table.Insert(user);
    if !inserted {
      return Err(IntegrityError);
    }
    return Ok(user);
  }

  /** Overriding the defaults with keyword arguments that include one more
      key is overriding them without it and then setting that key. */
  lemma DefaultsThenKeywords(kwargs: map<string, Value>, key: string, value: Value)
    ensures UserDefaults + kwargs[key := value] == (UserDefaults + kwargs)[key := value]
  {
  }

  /** `extra_fields.update(...)` with both privilege flags set to `value`. */
  function ForcedFlags(extraFields: map<string, Value>, value: bool): (forced: map<string, Value>)
    ensures forced.Keys == extraFields.Keys + {"is_staff", "is_superuser"}
    ensures forced["is_staff"] == Flag(value) && forced["is_superuser"] == Flag(value)
    ensures forall k :: k in extraFields && k != "is_staff" && k != "is_superuser" ==> forced[k] == extraFields[k]
  {
    extraFields["is_staff" := Flag(value)]["is_superuser" := Flag(value)]
  }

  /** Forcing the flags adds only columns, leaves the named parameters and
      the primary key alone, and the flags survive into the new user's
      fields. */
  lemma ForcedFlagsKeepsKeywords(uuid: string, extraFields: map<string, Value>, value: bool, email: Value)
    requires "email" !in extraFields && "password" !in extraFields
    requires "uuid" in extraFields ==> extraFields["uuid"].Text?
    ensures var forced := ForcedFlags(extraFields, value);
      && "email" !in forced && "password" !in forced
      && ("uuid" in forced ==> forced["uuid"].Text?)
      && PrimaryKey(uuid, forced) == PrimaryKey(uuid, extraFields)
      && (forced.Keys <= UserColumns <==> extraFields.Keys <= UserColumns)
    ensures var fields := (UserDefaults + (ForcedFlags(extraFields, value) - {"uuid"}))["email" := email];
      fields["is_staff"] == Flag(value) && fields["is_superuser"] == Flag(value)
  {
    var forced := ForcedFlags(extraFields, value);
    assert "is_staff" in UserColumns && "is_superuser" in UserColumns;
    assert forced.Keys == extraFields.Keys + {"is_staff", "is_superuser"};
    var kept := forced - {"uuid"};
    assert kept["is_staff"] == Flag(value) && kept["is_superuser"] == Flag(value);
  }

  /** `create_user`: both privilege flags forced to False, whatever the
      caller passed. */
  method CreateUser(table: UserTable, uuid: string, email: Option<string>, password: Option<string>,
                    extraFields: map<string, Value>)
    returns (r: Result<User, CreateError>)
    requires "email" !in extraFields && "password" !in extraFields
    requires "uuid" in extraFields ==> extraFields["uuid"].Text?
    modifies table
    ensures NormalizeEmail(email) == "" <==> r == Err(EmailNotSet)
    ensures r == Err(IntegrityError) <==>
      NormalizeEmail(email) != "" && extraFields.Keys <= UserColumns &&
      !Insertable(old(table.rows), PrimaryKey(uuid, extraFields), NormalizeEmail(email))
    ensures r.Err? ==> table.rows == old(table.rows) && table.saves == old(table.saves)
    ensures r.Ok? <==>
      NormalizeEmail(email) != "" && extraFields.Keys <= UserColumns &&
      Insertable(old(table.rows), PrimaryKey(uuid, extraFields), NormalizeEmail(email))
    ensures r.Ok? ==>
      && fresh(r.value) && r.value.uuid == PrimaryKey(uuid, extraFields)
      && r.value.fields == (UserDefaults + (ForcedFlags(extraFields, false) - {"uuid"}))["email" := Text(NormalizeEmail(email))]
      && "is_staff" in r.value.fields && r.value.fields["is_staff"] == Flag(false)
      && "is_superuser" in r.value.fields && r.value.fields["is_superuser"] == Flag(false)
      && r.value.password == SetPassword(password)
      && table.rows == old(table.rows)[r.value.uuid := UserRecord(r.value.fields, r.value.password)]
      && table.saves == old(table.saves) + [r.value.uuid]
    ensures old(table.Valid()) ==> table.Valid()
  {
    ForcedFlagsKeepsKeywords(uuid, extraFields, false, Text(NormalizeEmail(email)));
    r := CreateUserInternal(table, uuid, email, password, ForcedFlags(extraFields, false));
  }

  /** `create_superuser`: both privilege flags forced to True. */
  method CreateSuperuser(table: UserTable, uuid: string, email: Option<string>, password: Option<string>,
                         extraFields: map<string, Value>)
    returns (r: Result<User, CreateError>)
    requires "email" !in extraFields && "password" !in extraFields
    requires "uuid" in extraFields ==> extraFields["uuid"].Text?
    modifies table
    ensures NormalizeEmail(email) == "" <==> r == Err(EmailNotSet)
    ensures r == Err(IntegrityError) <==>
      NormalizeEmail(email) != "" && extraFields.Keys <= UserColumns &&
      !Insertable(old(table.rows), PrimaryKey(uuid, extraFields), NormalizeEmail(email))
    ensures r.Err? ==> table.rows == old(table.rows) && table.saves == old(table.saves)
    ensures r.Ok? <==>
      NormalizeEmail(email) != "" && extraFields.Keys <= UserColumns &&
      Insertable(old(table.rows), PrimaryKey(uuid, extraFields), NormalizeEmail(email))
    ensures r.Ok? ==>
      && fresh(r.value) && r.value.uuid == PrimaryKey(uuid, extraFields)
      && r.value.fields == (UserDefaults + (ForcedFlags(extraFields, true) - {"uuid"}))["email" := Text(NormalizeEmail(email))]
      && "is_staff" in r.value.fields && r.value.fields["is_staff"] == Flag(true)
      && "is_superuser" in r.value.fields && r.value.fields["is_superuser"] == Flag(true)
      && r.value.password == SetPassword(password)
      && table.rows == old(table.rows)[r.value.uuid := UserRecord(r.value.fields, r.value.password)]
      && table.saves == old(table.saves) + [r.value.uuid]
    ensures old(table.Valid()) ==> table.Valid()
  {
    ForcedFlagsKeepsKeywords(uuid, extraFields, true, Text(NormalizeEmail(email)));
    r := CreateUserInternal(table, uuid, email, password, ForcedFlags(extraFields, true));
  }
}

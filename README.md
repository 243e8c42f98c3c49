# CodeSpace core in Dafny

This project models the core of a Django/DRF backend for sharing code snippets ("codespaces").

A `CodeSpace` row lives in a relational table. While a codespace is being read and edited, its hot fields `name` and `code` are held in a Redis hash keyed by the codespace's uuid, with a time to live. The model class overlays that hash on its own attributes:
- reads of a hot field come from the hash when the key holds it;
- writes of `name` go to the hash if the key already exists;
- `save_redis_changes` flushes the hash back into the row.

Two signal receivers keep the cache consistent:
- a custom `post_get` signal, sent by the query set's `get`, seeds the hash if it is absent and re-arms its expiry;
- `post_delete` drops the hash.

Temporary codespaces live only in Redis. A manager reads them back.

Around this sit:
- an access-token scheme: AES-GCM over `uuid` and expiry, with a key derived from the MD5 hex digest of the site secret;
- two permission classes and a user manager;
- the user and reset-password serializers;
- a Celery task that renders and sends e-mail.

## How the model is laid out

- **Redis.** `Cache` models the Redis commands used (`HSET`, `HMSET`, `EXPIRE`, `DEL`, `EXISTS`, `HGET`, `HGETALL`). They are pure functions on a `Store` (a map from key to hash and optional TTL) wrapped by the class `Cache.Redis`, whose methods update `store` in place.
  - `HSET`/`HMSET` create a missing key with no TTL and keep an existing key's TTL.
  - `EXPIRE` on a missing key does nothing. With a non-positive time it deletes the key.
- **Class-definition check.** `ModelBase` models the check that `CodeSpaceBase.__new__` runs when a class is defined.
- **The overlaid model.** `CodeSpaces` models the model class. `CodeSpace` is a Dafny class with its attribute map, and `Database` holds the rows.
- **Signals and lookups.** `Handlers` and `Signals` model the two receiver modules. `Query` models `get`, and `Lifecycle` models delete and two edit scenarios.
- **Temporary codespaces.** `TmpCodeSpaces` and `Manager` model the Redis-only codespaces and their manager.
- **Tokens.** `Tokens` models the token. MD5, AES-GCM, base64 and UTF-8 are fields of a `Primitives` value. Its `Lawful()` states only the laws the token needs, such as "decryption inverts encryption under a 32-byte key and a 12-byte nonce". `Toy()` is a concrete instance proved lawful, so the laws are satisfiable.
- **Permissions and users.**
  - `CodeSpacePermissions` and `JwtPermissions` model the permission classes.
  - `Users` models the user manager, the model's defaults, and the user table with its primary key and unique e-mail constraints.
  - `UserSerializers` models the user serializer.
  - `ResetPassword` models the reset-password serializer.
- **E-mail.** `Emails` models the e-mail task, including its `on_failure` log line.
- **Text input.** `TextFields` models Python's `str.strip`, the last-`@` split and ASCII `lower`. It also models the input rules of Django REST framework's `CharField`, which the serializers' fields follow:
  - surrounding whitespace is trimmed;
  - a blank value is refused unless blank input is allowed;
  - the trimmed text is held to the field's length bounds.

Settings are parameters:
- the Redis expiry;
- the secret key;
- `DEFAULT_FROM_EMAIL`;
- template rendering;
- the e-mail format check;
- the token generator.

The following are parameters too:
- the clock for codespaces, as `now`;
- the random nonce;
- the `uuid4()` a new user's primary key defaults to.

## Model

| member | source | states |
|---|---|---|
| ModelBase.BuildStoreFields | src/core/models/codespace.py:41-74 | Definition fails with NoStoreFields when `redis_store_fields` is unset. It succeeds iff every listed field is a class attribute and the store key is not one of them. On success the map holds exactly the listed fields, each mapped to True. Otherwise the error names the first missing field or the clashing key. |
| ModelBase.DefineCodeSpace | src/core/models/codespace.py:83-89 | `CodeSpace`'s own declaration passes the check and yields `{"name": True, "code": True}`. |
| Cache.WithoutIdempotent | src/core/signals/codespace.py:8-19 | Deleting a key twice equals deleting it once, and the key is absent afterwards. |
| Cache.SeedIfAbsentSpec | src/core/handlers/codespace.py:32-43 | Seeding arms the TTL of the key. A missing key receives the given hash. A present key keeps its fields. A non-positive expiry removes the key. Every other key is unchanged. |
| Cache.SeedIfAbsentIdempotent | src/core/handlers/codespace.py:34-43 | A second seeding with any other data changes nothing: the first write wins. |
| Cache.SeedKeepsDirectWrites | src/core/handlers/codespace.py:34-43 | A field written into the hash after seeding survives a later seeding and re-arming. |
| CodeSpaces.OverlayView | src/core/models/codespace.py:166-179 | The attribute view has the instance's keys, and each value is what `__getattribute__` returns for that name. |
| CodeSpaces.HotValues | src/core/handlers/codespace.py:37-39 | The data pushed to Redis has exactly the store-field keys, with the instance's values. |
| CodeSpaces.SetterNeverCreates | src/core/models/codespace.py:151-191 | An attribute write never creates a Redis key. It changes only the written field of an existing key and keeps that key's TTL. |
| CodeSpaces.UnsettableWritesSkipCache | src/core/models/codespace.py:151-164 | A write to a name outside `redis_settable_fields` leaves Redis unchanged. |
| CodeSpaces.CodeIsNotSettable | src/core/models/codespace.py:83-89 | `code` is read through the cache but is not settable. `name` is both. The uuid key is not overlaid. |
| CodeSpaces.ReadAfterNameWrite | src/core/models/codespace.py:151-179 | After `name` is set, reading `name` returns the new value, whether or not the key is cached. |
| CodeSpaces.CodeWriteShadowedByCache | src/core/models/codespace.py:151-179 | When the hash holds `code`, assigning `code` on the instance is invisible to reads, which keep returning the cached value. |
| CodeSpaces.ViewOfFlushedAttributes | src/core/models/codespace.py:146-149 | After the hash fields are copied into the instance, the overlay view equals the instance's own attributes. |
| CodeSpaces.CodeSpace.FromRow | src/core/models/codespace.py:151-164 | Corrected load: loading a row gives an instance whose attributes are the row's columns, and Redis is not touched. The as-written load is `FromRowAsWritten`. |
| CodeSpaces.CodeSpace.FromRowAsWritten | src/core/models/codespace.py:151-164 | Loading through the model constructor's attribute assignments writes the row's `name` into an existing hash. |
| CodeSpaces.CodeSpace.IsCachedInRedis | src/core/models/codespace.py:127-133 | True iff Redis holds the key. |
| CodeSpaces.CodeSpace.RedisGetter | src/core/models/codespace.py:193-203 | The getter yields a value iff the key and the field exist in Redis. That value is the stored one. |
| CodeSpaces.CodeSpace.GetAttr | src/core/models/codespace.py:166-179 | An overlaid name held by the hash reads from Redis. Every other read returns the instance attribute. |
| CodeSpaces.CodeSpace.RedisSetter | src/core/models/codespace.py:181-191 | The setter writes the field only when the hash already holds that field (HEXISTS). Otherwise Redis is unchanged. |
| CodeSpaces.CodeSpace.SetAttr | src/core/models/codespace.py:151-164 | The instance attribute is always set. Redis changes exactly as the setter effect says. |
| CodeSpaces.CodeSpace.Save | src/core/models/codespace.py:146-149 | Saving stamps `updated_at` and writes the overlay view of the instance to its row. No other row changes. |
| CodeSpaces.CodeSpace.SaveRedisChanges | src/core/models/codespace.py:135-149 | The result is NotCached iff the key is absent. It is Flushed iff the key holds both hot fields. Then the row holds the cached `name` and `code` and the other columns, and the instance is updated. Otherwise nothing changes. |
| Handlers.CodespacePostDeleteHandler | src/core/handlers/codespace.py:10-21 | The instance's uuid is deleted from Redis, and nothing else changes. |
| Handlers.CodespacePostGetHandler | src/core/handlers/codespace.py:24-43 | Redis becomes the seeding of the instance's hot values under its uuid, with the configured expiry. |
| Signals.CodespacePostDeleteHandler | src/core/signals/codespace.py:8-19 | The second post-delete receiver deletes the same key. |
| Signals.SendPostGet | src/core/query.py:13 | Sending `post_get` logs the signal and runs the seeding receiver. |
| Signals.SendPostDelete | src/core/signals/codespace.py:8-19 | Running both connected post-delete receivers leaves Redis as one delete of the uuid would. |
| Query.Get | src/core/query.py:11-14 | Corrected lookup, built on the corrected load `FromRow`. A missing key gives DoesNotExist with no state change. Otherwise the result is a fresh instance with the row's columns, `post_get` is logged, and Redis becomes `GetEffect`, the seeding of the row's hot values. |
| Query.GetAsWritten | src/core/query.py:11-14 | The same lookup when the loaded instance's constructor writes through `__setattr__`. |
| Query.GetKeepsCachedFields | src/core/handlers/codespace.py:34-43 | A `get` keeps every cached field of a cached codespace, and seeds a missing key with the row's hot values. Either way the TTL is re-armed and no other key changes. |
| Query.GetAsWrittenDiscardsEditedName | src/core/models/codespace.py:151-164 | Under the as-written load, a `get` replaces a cached `name` with the stale row value. |
| Lifecycle.DeleteCodeSpace | src/core/handlers/codespace.py:10-21 | Deleting a codespace removes its row and its cache key and logs `post_delete`. Other rows are kept. |
| Lifecycle.CachePrecedenceScenario | src/core/models/codespace.py:135-179 | After a get and a direct cache write of `code`, the read returns the live value and the flush stores it. `name` and the other rows are unchanged. |
| Lifecycle.RenameScenario | src/core/models/codespace.py:135-191 | After a get and setting `name`, the read returns the new name. The cache holds the new name and the old code with the TTL armed, and the flush stores the new name. |
| TmpCodeSpaces.TmpCodeSpace.ToPython | src/core/models/codespace.py:255-262 | The dictionary has exactly the keys `code` and `uuid`, holding the instance's values. |
| TmpCodeSpaces.TmpCodeSpace.Save | src/core/models/codespace.py:264-273 | Saving seeds the hash under the uuid if absent and always re-arms the TTL. |
| TmpCodeSpaces.TmpCodeSpace.Delete | src/core/models/codespace.py:275-281 | Deleting removes the uuid from Redis. |
| TmpCodeSpaces.New | src/core/models/codespace.py:251-253 | The constructor keeps the uuid. A missing `code` takes the default snippet. |
| TmpCodeSpaces.SaveIsFirstWriteWins | src/core/models/codespace.py:264-273 | Saving again with other code keeps the first saved code and only re-arms the TTL. |
| Manager.GetAsWritten | src/core/manager.py:18-28 | Not found iff the uuid is missing or empty or the key is absent. A hash holding `uuid` is rejected as a duplicate keyword. Otherwise the result is built from the stored code. |
| Manager.Get | src/core/manager.py:18-28 | Corrected lookup: DoesNotExist under the same condition as the as-written lookup. Otherwise Ok, built from the uuid and the stored code. |
| Manager.SavedTmpCodeSpaceIsUnreadable | src/core/manager.py:26-28 | Every temporary codespace saved by `save` fails the as-written lookup. |
| Manager.SaveThenGet | src/core/manager.py:18-28 | After saving a temporary codespace, the corrected lookup returns it. After deleting it, the lookup reports DoesNotExist. |
| Tokens.HexDigest | src/codespace/tokens.py:21 | The hex digest is twice as long as the digest and holds only lowercase hex digits. |
| Tokens.HexDigestRoundTrip | src/codespace/tokens.py:21 | Decoding the hex digest gives the digest back. |
| Tokens.Secret | src/codespace/tokens.py:15-23 | The key is the hex form of the MD5 digest of the UTF-8 secret. |
| Tokens.SecretIsAes256Key | src/codespace/tokens.py:15-23 | Under a lawful MD5, the key is 32 bytes long, an AES-256 key, and it encodes the MD5 digest. |
| Tokens.Decimal | src/codespace/tokens.py:55 | `str()` of an integer never contains the separator. |
| Tokens.ParseDecimal | src/codespace/tokens.py:55 | A parsed decimal prints back to the same text. |
| Tokens.ParseDecimalOfDecimal | src/codespace/tokens.py:55 | Parsing `str(t)` gives `t` for every integer, negative ones included. |
| Tokens.TokenHashAsWritten | src/codespace/tokens.py:54-55 | The token text starts with the uuid, and the rest is the decimal expiry. |
| Tokens.TokenHashAsWrittenIsAmbiguous | src/codespace/tokens.py:54-55 | For every uuid and every expiry of two or more digits, a different uuid and expiry yield the same token text. |
| Tokens.ParsePayload | src/codespace/tokens.py:39-52 | A parsed payload re-encodes to the same text. |
| Tokens.ParsePayloadOfTokenPayload | src/codespace/tokens.py:54-55 | Parsing the separated payload gives back the uuid and the expiry, whatever characters the uuid holds. |
| Tokens.TokenPayloadInjective | src/codespace/tokens.py:54-55 | Equal separated payloads come from equal uuids and expiries. |
| Tokens.AesGcmDecrypt | src/codespace/tokens.py:45-50 | A key that is not 16, 24 or 32 bytes raises KeyLength. With a good key, a nonce outside 8 to 128 bytes raises NonceLength. A success implies the data holds at least a 16-byte tag and the primitive opened it. |
| Tokens.AesGcmOpensSealed | src/codespace/tokens.py:32-50 | Under lawful primitives, with a 32-byte key and a 12-byte nonce, decryption returns what encryption sealed. |
| Tokens.MakeTokenAsWritten | src/codespace/tokens.py:25-37 | Under lawful primitives, the decoded token is exactly the payload plus its 16-byte tag. It has no room for the nonce. |
| Tokens.DecryptTokenAsWritten | src/codespace/tokens.py:39-52 | The as-written decryption never returns a value. It fails with AttributeError exactly when base64 decoding and AES-GCM decryption succeed. A decoded token shorter than 8 bytes raises NonceLength under a valid key. |
| Tokens.MakeToken | src/codespace/tokens.py:25-37 | Corrected: under lawful primitives, the decoded token starts with the nonce. With a 32-byte key and a 12-byte nonce, the token opens to the separated payload. |
| Tokens.OpenToken | src/codespace/tokens.py:43-50 | Bad base64 gives InvalidBase64. A decoded token shorter than 8 bytes gives NonceLength under a valid key. A success means the decryption of the token's nonce and data succeeded and the text decodes to the result. |
| Tokens.DecryptToken | src/codespace/tokens.py:39-52 | The corrected decryption succeeds iff the token opens and its text parses. The opened text is then the payload of the result. |
| Tokens.TokenRoundTrip | src/codespace/tokens.py:25-52 | Under lawful primitives and a 12-byte nonce, decrypting a made token gives back the uuid and the expiry. |
| Tokens.ToyIsLawful | src/codespace/tokens.py:31-36 | The assumed laws of the primitives are satisfiable. |
| Tokens.NoncelessTokenDoesNotRoundTrip | src/codespace/tokens.py:25-52 | One lawful counterexample. With the toy primitives, the secret "k", uuid "u", expiry 1 and any 12-byte nonce, a token made as written fails with InvalidTag under the corrected decoder: after 12 bytes are taken as the nonce, fewer bytes than a tag are left. |
| CodeSpacePermissions.ObjectPermission.HasObjectPermission | src/codespace/permissions.py:13-14 | The check succeeds iff the object has the class's owner field. The answer is true iff that field equals the request user. A missing field raises AttributeError naming it. |
| CodeSpacePermissions.OwnerFieldDecides | src/codespace/permissions.py:11-23 | `IsObjectOwner` looks only at `owner`, and `IsCodeSpaceOwner` looks only at `created_by`. Changing the other field does not change the answer. |
| JwtPermissions.HasPermission | src/jwt_auth/permissions.py:9-10 | Access is refused exactly to a logged-in user. A missing user and the anonymous user are admitted. |
| Users.SetPassword | src/core/models/user.py:35 | No password gives an unusable password. A password gives a hashed one. |
| Users.CheckPassword | src/core/models/user.py:35 | A password checks iff the stored password is what `set_password` makes of it. The empty and the unusable password check nothing. |
| Users.SetPasswordThenCheck | src/core/models/user.py:35 | After `set_password`, `check_password` accepts exactly the password that was set. |
| Users.User.constructor | src/core/models/user.py:67-97 | A new user carries the field defaults overridden by the keyword arguments, and has no password yet. |
| Users.WriteKeepsUniqueEmails | src/core/models/user.py:73-79 | Writing a row whose e-mail no other row holds keeps the e-mails of the table unique. |
| Users.UserTable.Insert | src/core/models/user.py:36 | Saving a new user succeeds iff its primary key is not yet in the table and no row holds its e-mail. On success the record is written under the uuid and one save is logged. On an IntegrityError the table is unchanged. Unique e-mails stay unique. |
| Users.UserTable.Save | src/users/serializers.py:53 | Saving a loaded user succeeds iff no other row holds its e-mail. On success the record is written under the uuid and one save is logged. Otherwise the table is unchanged. Unique e-mails stay unique. |
| Users.StoredEmailBlocksInsert | src/core/models/user.py:73-79 | Once a row holds an e-mail, inserting another user with that e-mail is refused, whatever its primary key. |
| Users.NormalizeEmail | src/core/models/user.py:30 | The result is empty iff no e-mail or an empty one was given. A text without `@` comes back as it was given. |
| Users.NormalizeEmailLowersDomain | src/core/models/user.py:30 | When the stripped text has an `@`, the local part is kept and the part after the last `@` is lower case. |
| Users.NormalizeEmailIdempotent | src/core/models/user.py:30 | Normalising a normalised address changes nothing. |
| Users.PrimaryKey | src/core/models/user.py:67-72 | A `uuid` keyword overrides the generated `uuid4()`. |
| Users.CreateUserInternal | src/core/models/user.py:20-37 | The result is EmailNotSet iff the normalised e-mail is empty. A keyword that is not a column is a TypeError. The result is IntegrityError iff the e-mail is set, every keyword is a column, and either the primary key is taken or another row holds the normalised e-mail. Success happens iff the e-mail is set, every keyword is a column, and the primary key and the e-mail are both free. On success: the primary key is the `uuid` keyword or the generated one; the user has the defaults, the other keywords and the e-mail; the password is `set_password` of the argument; the table gains that record; exactly one save happens. Failure leaves the table unchanged. Unique e-mails stay unique. |
| Users.ForcedFlags | src/core/models/user.py:45 | `is_staff` and `is_superuser` are forced to the given flag. The other extra fields are kept. |
| Users.CreateUser | src/core/models/user.py:39-46 | Same success and failure conditions as `_create_user`, including the IntegrityError on a taken primary key or e-mail. On success the user is neither staff nor superuser, whatever was passed. It also has the primary key, fields, password and table record `_create_user` gives, with exactly one save. |
| Users.CreateSuperuser | src/core/models/user.py:48-55 | Same as `create_user`, except that the user is both staff and superuser. |
| UserSerializers.AnyDigit | src/users/serializers.py:29 | True iff some character of the password is a digit. |
| UserSerializers.ValidatePassword | src/users/serializers.py:25-33 | The password is accepted unchanged iff it contains a digit. Otherwise the error is NoDigit. |
| TextFields.CharFieldValue | src/users/serializers.py:8-23 | Input that is all whitespace is Blank unless blank input is allowed. Otherwise the stripped text is TooLong above the maximum, TooShort below the minimum, and NullCharacter when it holds `'\0'`, checked in that order. An accepted value is the stripped text, which holds no `'\0'`. |
| UserSerializers.PasswordValidation | src/users/serializers.py:18-33 | The password is trimmed first. Then: Blank iff it is all whitespace; TooLong iff the trimmed text exceeds 128 characters; TooShort iff it has 1 to 5; NullCharacter iff it has 6 to 128 and holds `'\0'`. Ok iff it has 6 to 128 characters, no `'\0'` and a digit, and the value is the trimmed text. |
| UserSerializers.PasswordExamples | src/users/serializers.py:18-33 | "inv12" is too short, "invalid" has no digit, and "password123" is accepted. |
| UserSerializers.TrimmedPasswordExamples | src/users/serializers.py:18-33 | "12345 " is too short, and "abc123 " is accepted as "abc123". |
| UserSerializers.NullCharacterRefused | src/users/serializers.py:8-23 | A password of the right length and a name, each holding `'\0'`, are refused with NullCharacter. |
| UserSerializers.CheckField | src/users/serializers.py:8-23 | Input that is not text is refused. Names may be blank and are accepted iff the trimmed text has at most 255 characters and no `'\0'`. The e-mail is accepted iff it is not all whitespace, the trimmed text has at most 255 characters and no `'\0'`, passes the format check, and no other user holds it (EmailInUse otherwise). The password follows `PasswordValidation`. An accepted value is the trimmed text. |
| UserSerializers.ValidatedData | src/users/serializers.py:8-23 | Validation succeeds iff no writable field fails. The result has exactly the writable fields of the input, each holding the trimmed text. A full validation holds `email` and `password`. Otherwise the error is the set of failing fields. |
| UserSerializers.ValidatedDataFitsColumns | src/users/serializers.py:8-23 | Every validated value is text with no surrounding whitespace. It fits its column: 128 characters for the password, 255 for the others. |
| UserSerializers.ValidatedEmailIsFree | src/users/serializers.py:8-23 | A validated e-mail passed the format check and is held by no other user. |
| UserSerializers.UuidIsReadOnly | src/users/serializers.py:17 | Validated data never contains `uuid`. |
| UserSerializers.Update | src/users/serializers.py:40-54 | Every validated key is assigned, except `password`, which goes through `set_password`. The save succeeds iff no other user holds the instance's e-mail. Then the instance is saved once and returned. Otherwise the table is unchanged. Unique e-mails stay unique. |
| UserSerializers.UpdatePassword | src/users/serializers.py:56-59 | The user's password becomes the hash of the new one, and the check accepts it. Nothing else changes. |
| UserSerializers.UpdateSetsPassword | src/users/serializers.py:47-54 | After an update that carries a password, only that password checks. Untouched fields keep their values. No raw `password` field is added. |
| ResetPassword.ValidateEmail | src/reset_password/serializers.py:17-25 | The e-mail is accepted unchanged iff a user has it. Otherwise the error is NoSuchUser naming the e-mail. |
| ResetPassword.Validate | src/reset_password/serializers.py:15-25 | A missing `email` gives EmailRequired, and an all-whitespace one gives EmailBlank. A trimmed e-mail holding `'\0'` gives EmailNullCharacter. Validation succeeds iff the trimmed e-mail holds no `'\0'`, is well formed and is registered. The validated data is then exactly the trimmed e-mail. NoSuchUser names the trimmed e-mail. |
| ResetPassword.PaddedEmailValidatesAsBare | src/reset_password/serializers.py:15-25 | Whitespace around a non-blank e-mail gives the same validation as the bare address. |
| ResetPassword.GenerateTokenFrom | src/reset_password/serializers.py:40-50 | Not validated gives AssertionError. Failed validation (no e-mail) gives KeyError. An unknown user gives DoesNotExist. Otherwise the token is made for the user with that e-mail. |
| ResetPassword.RequestResetPasswordSerializer.IsValid | src/reset_password/serializers.py:15-25 | The first call returns validity. Validated data then holds the trimmed e-mail on success and is empty on failure. A later call validates nothing: it keeps the validated data and repeats the first answer, whatever the users are by then. |
| ResetPassword.RequestResetPasswordSerializer.GenerateToken | src/reset_password/serializers.py:40-50 | AssertionError iff `is_valid` has not run. Otherwise success iff the validated data holds an e-mail of a known user, and the token is made for that user. |
| ResetPassword.ValidateThenGenerate | src/reset_password/serializers.py:40-50 | After successful validation, generation yields the token of the user with the validated e-mail. After failed validation, it raises KeyError `email`, not AssertionError. |
| Emails.GetContents | src/emails/tasks.py:66-74 | Two entries: the plain-text template first, then the HTML template. Only the first is plain text. |
| Emails.FilledSticky | src/emails/tasks.py:59-64 | Once filling the message fails, later contents change nothing. |
| Emails.FilledMatchesReference | src/emails/tasks.py:59-64 | When every template renders, the filled message has the last plain-text rendering as body and the other renderings as alternatives, in order. |
| Emails.DefaultContents | src/emails/tasks.py:66-74 | With the corrected method name, the default contents give the rendered plain text as body and one HTML alternative. |
| Emails.DefaultContentsAsWrittenFail | src/emails/tasks.py:59-74 | As written, the default contents always fail on the HTML part with AttributeError `attach_alternatives`. |
| Emails.UpdateMessageContent | src/emails/tasks.py:48-64 | The loop leaves the message as the fold `Filled` over the contents describes, and reports its failure. |
| Emails.SendMessage | src/emails/tasks.py:76-79 | `send()` returns 1 and appends exactly this message to the outbox iff some address in `to` is non-empty. Otherwise it returns 0 and the outbox is unchanged. |
| Emails.NewMessage | src/emails/tasks.py:26-30 | Constructing a message succeeds iff every keyword is accepted. Otherwise it fails with TypeError naming an offending keyword. |
| Emails.RunAsWritten | src/emails/tasks.py:16-38 | The task as written always fails with TypeError `email_from` and sends nothing. |
| Emails.Run | src/emails/tasks.py:16-38 | The corrected task sends exactly one message iff the contents fill without failure and the address is not empty. That message carries the rendered body and alternatives. With an empty address it ends with NoRecipient and sends nothing. |
| Emails.PercentFormat | src/emails/tasks.py:43-46 | Arguments with no placeholder in the message make formatting fail. |
| Emails.OnFailureAsWritten | src/emails/tasks.py:40-46 | The failure hook logs one record: the first line as message, with the recipient line as an argument. |
| Emails.OnFailure | src/emails/tasks.py:40-46 | The corrected hook logs one record holding both lines and no arguments. |
| Emails.FailureRecordAsWrittenUnformattable | src/emails/tasks.py:43-46 | The as-written record cannot be formatted when the task id and exception hold no `%`. |
| Emails.FailureRecordFormatted | src/emails/tasks.py:43-46 | The corrected record formats to both lines. |

## Left out

- Redis: network I/O, connection errors and the passage of time. A TTL is recorded but never runs out.
- Cryptography: AES-GCM, MD5, base64 and UTF-8 are abstract primitives constrained only by the laws the token needs. The random nonce from `secrets` is a parameter.
- Concurrency: signal receivers, Celery workers and concurrent Redis clients are treated as sequential.
- `get_default_code_value` and `get_default_name`: the default name reads the clock, so it is not modelled. The default code is the constant `DefaultCode`.
- The `TmpCodeSpaceBase` metaclass: it only checks that a manager named `objects` is declared and attaches `DoesNotExist`.
- Views, URLs, admin, migrations and the humanised-time properties: these are not part of this model.
- `UserSerializer.create`: it forwards to `create_user`, which is modelled as `Users.CreateUser`.
- `get_password_token_generator` and `get_password_token_generator_class`: class objects are not modelled. The generator's `make_token` is a parameter of `ResetPassword.GenerateTokenFrom`.
- UserSerializers.ValidatedData: the `EmailField` format check is the `wellFormed` parameter, and the unique-email check is the `taken` parameter, the e-mails held by other users. The model reports the first failing rule of a field, where DRF collects the messages of every failing validator.
- ResetPassword.Validate: the `EmailField` format check is the `wellFormed` parameter.
- UserSerializers.CheckField: a number is refused as NotText, where `CharField` would convert it to text. Null input is not modelled.
- Emails.SendMessage: the mail backend's own failures, such as SMTP errors raised by `send_messages`, are not modelled. A message with a recipient always reaches the outbox.
- TextFields.CharFieldValue: Dafny's `char` excludes surrogate code points, so the surrogate-character validator of `CharField` has nothing to refuse and is not modelled.
- Template loading and rendering: the `render` parameter, returning None when a template is missing.
- Users.CreateUserInternal: the `date_joined` default (`timezone.now`) is not added to a new user's fields, because the clock is not modelled for users. The `pk` alias keyword is reported as unexpected, where the model constructor accepts it. A `uuid` keyword must be text, and its UUID format is not checked.
- Query.Get: models only the lookup by primary key. Other filters and MultipleObjectsReturned are left out.
- CodeSpaces.CodeSpace.SaveRedisChanges: when the hash lacks a hot field, the source writes None into the instance and the save then fails on the NOT NULL column. The model reports FieldMissing and leaves the instance and the row unchanged.
- UserSerializers.AnyDigit: accepts the ASCII digits only. Python's `str.isdigit` also accepts other Unicode digits.
- Users.NormalizeEmail: lower-cases ASCII letters only. Python's `str.lower` also maps other letters.
- Tokens.MakeToken: the key-length ValueError of `AESGCM(key)` is modelled on the decrypting side only. The encrypting side relies on the 32-byte key a lawful MD5 gives.
- Users.SetPassword: the hash is represented by the raw password inside `Hashed`. Salting and the hasher are not modelled.
- Emails.PercentFormat: understands only `%s` and `%%`. That is enough for the two log lines, whose task id and exception text are treated as free of other directives.
- Lifecycle.DeleteCodeSpace: assumes that both post-delete receiver modules are imported and connected. Each receiver deletes the same key.
- Signals.SendPostGet: the `post_get` signal object is declared in a module that is not part of this model. The receivers connected to it are the ones modelled here.

## Findings

| source | as written | input that shows it | evidently intended | confidence | as-written member | corrected member |
|---|---|---|---|---|---|---|
| src/codespace/tokens.py:51 | calls `.encode("utf8")` on the bytes returned by decryption | any token that authenticates | `.decode("utf8")`, then split into uuid and expiry | high, not executed | Tokens.DecryptTokenAsWritten | Tokens.DecryptToken |
| src/codespace/tokens.py:31-37 | the random nonce is not part of the returned token, yet decryption reads it from the first 12 bytes | uuid "u", expiry 1, any 12-byte nonce | prepend the nonce to the ciphertext | high, not executed | Tokens.NoncelessTokenDoesNotRoundTrip | Tokens.TokenRoundTrip |
| src/codespace/tokens.py:54-55 | uuid and expiry are concatenated with no separator | ("ab1", 23) and ("ab", 123) give the same text | a separator the decimal cannot contain | high, not executed | Tokens.TokenHashAsWrittenIsAmbiguous | Tokens.TokenPayloadInjective |
| src/core/manager.py:26-28 | passes `uuid=` and also every hash field, and the saved hash holds `uuid` | any saved temporary codespace | drop the stored `uuid` field | high, not executed | Manager.SavedTmpCodeSpaceIsUnreadable | Manager.SaveThenGet |
| src/core/models/codespace.py:151-164 | the model constructor assigns loaded columns through `__setattr__`, which writes the row's `name` into an existing hash | cached name "B", row name "A": after `get` the cache holds "A" | loading does not write to the cache | medium, not executed | Query.GetAsWrittenDiscardsEditedName | Query.GetKeepsCachedFields |
| src/emails/tasks.py:64 | calls `attach_alternatives`, which the message class lacks | any e-mail with an HTML template | `attach_alternative` | high, not executed | Emails.DefaultContentsAsWrittenFail | Emails.DefaultContents |
| src/emails/tasks.py:26-30 | passes `email_from=`, which the message constructor does not accept | any call of the task | `from_email=` | high, not executed | Emails.RunAsWritten | Emails.Run |
| src/emails/tasks.py:43-46 | the second f-string is passed as a formatting argument of the first | task id "t", exception "e" | one message joining both lines | high, not executed | Emails.FailureRecordAsWrittenUnformattable | Emails.FailureRecordFormatted |

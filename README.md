# User registration, modelled in Dafny

This project models the registration path of a small Express and Mongoose
user-account backend. The handler `registerUser` runs four checks in a fixed
order, and the first one that fails decides the response:

1. no body field may be blank;
2. the username and email must be new;
3. an avatar file must be present;
4. the avatar upload must succeed.

It then makes one `User.create`, and answers 201 with the created user minus
its password and refresh token. The model also covers the `User` schema that
`create` goes through:

- the `lowercase` and `trim` setters;
- the `required` paths;
- the unique indexes on username and email;
- the pre-save hook, which hashes the password only when the password path
  was modified;
- `isPasswordCorrect`.

The files:

- `wrappers.dfy`: `Option` and `Result`.
- `js_string.dfy` (`JsString`): JavaScript's `trim` (the full set of ECMAScript
  white space) and `toLowerCase`, with their characterising contracts.
- `bcrypt.dfy` (`Bcrypt`): hashing as a symbolic digest. A digest records its
  cost and its preimage. So it is never equal to the plaintext, `compare`
  accepts the plaintext it was made from, and the plaintext no longer matches
  once its digest is hashed again. The symbolic digest is injective and is not
  a string a caller could submit, so in the model `compare` accepts only that
  plaintext. Real bcrypt also accepts any candidate that agrees with it on
  its first 72 bytes, and accepts the text of a digest against that digest's
  own hash; "## Left out" lists the members this affects.
- `cloudinary.dfy` (`Cloudinary`): the upload helper as an oracle. The
  service's answer is a parameter. A falsy path gets no result and is never
  sent to the service.
- `user_model.dfy` (`UserModel`): the schema as values and predicates.
  - `SaveDocument` is the value-level meaning of `save()`. It runs validation,
    then the hook, then a write under the unique indexes.
  - `StoreValid` is the collection's invariant.
  - The class `UserCollection` holds the stored records as a `seq`, which its
    `Write` method reassigns.
  - The class `UserDocument` holds a document's fields. Its `PreSave` and
    `Save` methods overwrite the password field in place, and each is proved
    against `SaveDocument`.
- `user_controller.dfy` (`UserController`): `Register` is the handler as a
  function of the stored records, the request and the upload answers.
  `RegisterUser` is the same handler as an imperative method on a
  `UserCollection`, proved equal to `Register`.
- `registration_properties.dfy` (`RegistrationProperties`): lemmas about
  `Register`.

Modelling choices:

- Collaborators become parameters or oracles. The upload service's answers are
  the `UploadAnswers` argument. The network, the clock and the file system do
  not appear.
- `_id` is the record's position in the collection, since nothing is deleted
  in this scope. A document's `id` is unset while it is new (Mongoose's
  `isNew`). Mongoose assigns the ObjectId when the document is constructed,
  and a failed save keeps it; the model gives the position at the first
  successful insert instead. Nothing on the registration path reads `_id`
  before the save, so the two agree on every response and record.
- The duplicate query's filter values go through the schema's setters before
  they are compared, as Mongoose casts query filters. An unset value in the
  filter matches no record, because every stored record has both keys.
- When `save()` fails at the write, the document keeps the hashed password and
  stays marked modified, as Mongoose leaves it.
- src/routes/user.routes.js:3-8 also wires `loginUser`, `logOutUser` and
  `varifyJWT`. None of them is defined in the controller or the model, so the
  model has only registration and the schema.
- The schema has two separate unique indexes, one on username
  (src/models/user.model.js:9) and one on email (src/models/user.model.js:17).
  A username or an email already stored is each a conflict on its own.

## Model

| member | source | states |
|---|---|---|
| `JsString.SkipWhiteSpace` | src/controllers/user.controller.js:13 | the first non-white-space index from a start, with everything skipped being white space |
| `JsString.SkipWhiteSpaceBack` | src/controllers/user.controller.js:13 | the end of an infix once trailing white space is cut, with everything cut being white space |
| `JsString.Trim` | src/controllers/user.controller.js:13 | `trim()` gives an infix that neither starts nor ends with white space, with only white space cut from either end; it is empty exactly when the input is all white space |
| `JsString.ToLowerCase` | src/controllers/user.controller.js:52 | `toLowerCase()` keeps the length, maps each code point by the ASCII lower-case map, and leaves no capital |
| `JsString.ToLowerCaseIdempotent` | src/models/user.model.js:10 | the schema's `lowercase` setter after the handler's own `toLowerCase()` changes nothing more |
| `JsString.ToLowerCaseKeepsBlankness` | src/models/user.model.js:10-11 | lower-casing neither creates nor removes white space, so a key is blank before exactly when it is blank after |
| `JsString.TrimKeepsLowerCase` | src/models/user.model.js:10-11 | the `trim` setter applied after `lowercase` keeps the key lower case |
| `Bcrypt.Hash` | src/models/user.model.js:54 | `bcrypt.hash` yields a digest different from its input, which `compare` accepts for the plaintext hashed; with the injective symbolic digest, for that plaintext only (see "## Left out") |
| `Bcrypt.Compare` | src/models/user.model.js:59 | `bcrypt.compare(candidate, stored)` can be true only against a digest, and never against the candidate's own plaintext |
| `Bcrypt.RehashMatchesNothing` | src/models/user.model.js:50-54 | hashing an already hashed password makes `compare` of the original plaintext fail, which is why the hook must hash only once; with the symbolic digest no candidate matches (see "## Left out") |
| `Cloudinary.UploadOnCloudinary` | src/utils/cloudinary.js:11-24 | a falsy path gives no result; otherwise the service's answer, with a thrown upload giving no result |
| `Cloudinary.SentToService` | src/utils/cloudinary.js:13-16 | a path reaches the upload service exactly when it is truthy |
| `UserModel.CastKey` | src/models/user.model.js:6-19 | the username and email setters give a lower-case, trimmed key, empty only for blank input |
| `UserModel.CastKeyOfLowerCase` | src/controllers/user.controller.js:52 | casting the handler's lower-cased username equals casting the username itself |
| `UserModel.ApplySetters` | src/models/user.model.js:5-26 | building a document casts username and email, trims fullName, keeps unset paths unset and leaves the image paths alone |
| `UserModel.Validates` | src/models/user.model.js:8-42 | the `required` rules of lines 8, 16, 23, 29 and 42: username, email, fullName and avatar are set and not the empty string, and a password is set and not the empty plaintext |
| `UserModel.RequiredRejectsBlank` | src/models/user.model.js:8-24 | with the setters applied, a blank username, email or fullName fails validation, since the trim setter makes it the empty string that `required` refuses |
| `UserModel.HashOnSave` | src/models/user.model.js:51-54 | the hook's branch: a modified password becomes a digest different from it that `compare` accepts for its plaintext; an unmodified one is kept as it is |
| `UserModel.NewDocument` | src/controllers/user.controller.js:49-56 | a new document is new (`isNew`, modelled as an unset `id`), has cast paths, and has its password path marked modified exactly when a password was given |
| `UserModel.PasswordCorrect` | src/models/user.model.js:58-60 | `isPasswordCorrect` throws exactly when there is no stored password; it is false whenever the stored value is a plaintext, and true when the stored value is the save hook's digest of the candidate |
| `UserModel.Select` | src/controllers/user.controller.js:59-61 | `.select("-password -refreshToken")`: the record is the view together with its password and refresh token, so the view loses those two fields and nothing else |
| `UserModel.SelectDropsOnlySecrets` | src/controllers/user.controller.js:59-61 | `select("-password -refreshToken")` removes exactly the two secret fields, and no other field |
| `UserModel.WrittenKeepsStoreValid` | src/models/user.model.js:5-47 | a write that breaks no unique index keeps all keys unique and all records schema-valid |
| `UserModel.FindOneFrom` | src/controllers/user.controller.js:19-21 | `findOne` over `$or` of username and email returns the position of the first matching record, or none when no record matches |
| `UserModel.FindById` | src/controllers/user.controller.js:59 | `findById(id)` finds a record exactly when the id is in the collection, gives the record there, and in a valid collection that record has that `_id` and is schema-valid |
| `UserModel.FindOneNoneMeansNoCollision` | src/controllers/user.controller.js:19-25 | when the duplicate query finds nothing, inserting a record with those keys breaks no unique index |
| `UserModel.SaveDocument` | src/models/user.model.js:50-56 | a failed save leaves the collection alone; a successful insert appends the returned record under the next `_id`; a successful re-save replaces the record with the document's `_id` |
| `UserModel.HookedRecordSchemaValid` | src/models/user.model.js:5-56 | a valid document that passes validation and then the hook is written as a schema-valid record, with a digest as its password |
| `UserModel.SaveKeepsInvariants` | src/models/user.model.js:5-56 | saving keeps the collection's invariant and the document's invariant; a failure changes no record; a success stores the returned record at its `_id` |
| `UserModel.SavedPasswordVerifies` | src/models/user.model.js:54-60 | after a save in which the password was set to `p`, the stored password is `Hash(p)` and not `p`, and `isPasswordCorrect(p)` is true; with the injective symbolic digest, true exactly for `q == p` (see "## Left out") |
| `UserModel.UnmodifiedPasswordKept` | src/models/user.model.js:51-53 | when the password path was not modified, the hook leaves it, and its stored value, unchanged |
| `UserModel.SaveAgainChangesNothing` | src/models/user.model.js:50-56 | saving again after a successful save re-hashes nothing and changes neither the collection nor the document |
| `UserModel.UserCollection.constructor` | src/models/user.model.js:92 | the collection starts empty and valid |
| `UserModel.UserCollection.Write` | src/models/user.model.js:9-17 | an insert or replace is refused with a duplicate-key error exactly when it would break a unique index; otherwise it is applied, and the invariant holds |
| `UserModel.UserDocument.constructor` | src/controllers/user.controller.js:49-56 | `new User(fields)` builds the document `NewDocument` describes |
| `UserModel.UserDocument.PreSave` | src/models/user.model.js:50-56 | the hook replaces the password field with its hash when the field was modified, and changes nothing else |
| `UserModel.UserDocument.Save` | src/models/user.model.js:50-60 | the in-place `save()` does what `SaveDocument` says and keeps both invariants; after a successful save of a plaintext `p`, `isPasswordCorrect(p)` holds |
| `UserController.AnyBlank` | src/controllers/user.controller.js:12-16 | `.some(field => field?.trim() === "")` is true exactly when some field is set and all white space; an unset field never trips it |
| `UserController.AvatarLocalPathAsWritten` | src/controllers/user.controller.js:28 | the lookup as written throws a `TypeError` exactly when `req.files` is set but has no avatar field |
| `UserController.AvatarLookupThrowsWithoutAvatar` | src/controllers/user.controller.js:28 | a request carrying only a cover image makes the written lookup throw |
| `UserController.AvatarLocalPath` | src/controllers/user.controller.js:28 | the corrected lookup is unset exactly when no avatar file came with the request; it otherwise gives the first avatar file's path, and it agrees with the written lookup wherever that does not throw |
| `UserController.CoverLocalPath` | src/controllers/user.controller.js:30-34 | the cover path is the first cover file's path, unset when no cover file came with the request |
| `UserController.CoverUrl` | src/controllers/user.controller.js:55 | the cover URL, or "" for a missing or falsy one, is empty exactly when no cover was uploaded or its URL is empty, and otherwise is that URL |
| `UserController.CreateFields` | src/controllers/user.controller.js:49-56 | the `User.create` argument: after the setters its username is the cast form of the request's own username, the email and fullName are the request's, the avatar is the upload's URL and the cover is `CoverUrl` |
| `UserController.CreateUser` | src/controllers/user.controller.js:49-66 | a failed `User.create` changes no record; a successful one appends exactly one record and leaves the other records as they were |
| `UserController.Register` | src/controllers/user.controller.js:7-72 | every failing registration leaves the collection unchanged; a successful one appends exactly one record and changes no other |
| `UserController.RegisterUser` | src/controllers/user.controller.js:7-72 | the imperative handler on the collection gives the response, the uploads and the new collection that `Register` gives, and keeps the collection valid |
| `RegistrationProperties.NoBlankFieldIsNotAnyBlank` | src/controllers/user.controller.js:12-16 | the validation check passes exactly when none of username, fullName, email and password is set to a blank string |
| `RegistrationProperties.UnregisteredIsFindOneNone` | src/controllers/user.controller.js:19-23 | the duplicate query finds nothing exactly when no record has the cast username or email |
| `RegistrationProperties.RegisterRejectsBlankField` | src/controllers/user.controller.js:12-16 | a blank field gives 400 "All fields are required", whatever the later checks would say; nothing is stored and nothing is uploaded |
| `RegistrationProperties.RegisterRejectsDuplicate` | src/controllers/user.controller.js:19-25 | when the fields are not blank, a stored username or email gives 409, whatever the files would give; nothing is stored and nothing is uploaded |
| `RegistrationProperties.RegisterRequiresAvatarFile` | src/controllers/user.controller.js:36-38 | when the first two checks pass, a missing avatar file gives 400 "Avatar must be required"; nothing is stored and nothing is uploaded |
| `RegistrationProperties.RegisterReportsFailedAvatarUpload` | src/controllers/user.controller.js:41-46 | a failed avatar upload gives 400 "Avatar upload failed" and nothing is stored, but the avatar and any cover were already sent |
| `RegistrationProperties.RegisterUnsetFieldFailsLate` | src/controllers/user.controller.js:49-56 | an unset field passes validation and fails only after the uploads: a `TypeError` for an unset username, a schema validation error otherwise; nothing is stored |
| `RegistrationProperties.RegisterReachesCreate` | src/controllers/user.controller.js:36-49 | once the four checks pass and a username is set, the outcome is that of `User.create` |
| `RegistrationProperties.CreateUserSucceedsExactlyWhen` | src/controllers/user.controller.js:49-66 | for new, non-blank keys, `create` succeeds exactly when all fields are set and the avatar URL is not empty; on success it appends the normalised record and answers 201 with its public view |
| `RegistrationProperties.CreateUserStoresRecord` | src/controllers/user.controller.js:49-65 | with all fields set, non-blank and new, and a non-empty avatar URL, `User.create` appends the normalised record under the next `_id` and the handler answers 201 with its public view |
| `RegistrationProperties.CreateUserFailsValidation` | src/controllers/user.controller.js:49-56 | with an unset email, fullName or password, or an empty avatar URL, `User.create` fails schema validation and nothing is stored |
| `RegistrationProperties.RegisterSucceedsExactlyWhen` | src/controllers/user.controller.js:12-71 | registration succeeds exactly when all four checks pass, all fields are set and the avatar URL is not empty |
| `RegistrationProperties.RegisterStoresNormalisedRecord` | src/controllers/user.controller.js:49-71 | on success exactly one record is appended. It has username `trim(lower(username))`, the avatar URL, and the cover URL or "". Its password is the digest, never the plaintext, and accepts the given password (in the symbolic model, only it; see "## Left out"). The response is 201 with the record minus its secrets |
| `RegistrationProperties.RegisterNeverDuplicateKeyOrNotFound` | src/controllers/user.controller.js:19-66 | registration never reaches the unique index's duplicate-key error, and never reaches the 500 "User creation failed" branch |
| `RegistrationProperties.RegisterKeepsStoreValid` | src/models/user.model.js:5-47 | after any registration the stored records still have unique usernames and emails, cast and required paths, and only hashed passwords |
| `RegistrationProperties.RegisterUploadsOnlyAfterChecks` | src/controllers/user.controller.js:12-42 | nothing is uploaded unless validation, the duplicate check and the avatar check all pass, and the avatar is uploaded first |
| `RegistrationProperties.RegisterSameUsernameAgainConflicts` | src/controllers/user.controller.js:19-25 | right after a username is registered, registering it again in any letter case gives 409 |

## Findings

| source | as written | input that shows it | evidently intended | confidence | as-written member | corrected member |
|---|---|---|---|---|---|---|
| src/controllers/user.controller.js:28 | `req.files?.avatar[0]?.path` reads `[0]` of an unset `avatar` field | a multipart request with only a `coverImage` file, so `req.files` is `{ coverImage: [...] }` | `req.files?.avatar?.[0]?.path`, so that the 400 "Avatar must be required" check at lines 36-38 fires | high; not executed | `UserController.AvatarLocalPathAsWritten` (shown by `UserController.AvatarLookupThrowsWithoutAvatar`) | `UserController.AvatarLocalPath` (used by `Register`; see `RegistrationProperties.RegisterRequiresAvatarFile`) |

## Left out

- Login, logout, token refresh and the auth gate: `loginUser`, `logOutUser` and `varifyJWT` are imported by the routes, but are not defined in any file this model covers.
- `generateAccessToken` and `generateRefreshToken` (src/models/user.model.js:63-90) wrap the jsonwebtoken library and read secrets from the environment.
- `asyncHandler` and `ApiResponse` are not part of this model. A `Failed` result is what the handler passes on. The status that the error handler gives a `TypeError` or a Mongoose error is not modelled. Neither is the response body's own status field (src/controllers/user.controller.js:71).
- The `ApiError` class (src/utils/ApiError.js) is reduced to a status code and a message. As written, the 400, 409 and 500 `ApiError` failures cannot be raised: src/controllers/user.controller.js:2 imports `ApiError`, but src/utils/ApiError.js:22 exports only `AppiError`, which is a module link error, and the constructor reads the undeclared `stack` at src/utils/ApiError.js:15, which throws a ReferenceError on every `new`. The model's `ApiError` failures are what the handler evidently intends.
- The upload helper's network call, its configuration and its `fs.unlinkSync` calls are left out. So is an `unlinkSync` in the catch block that throws in turn: this is file and network I/O.
- The multer disk storage and its file names are left out, because they depend on the clock and on randomness.
- src/models/video.model.js has no behaviour.
- The race between `findOne` and `create` under concurrent requests is left out: the model is sequential.
- `toLowerCase` is modelled on ASCII letters only. Unicode case mapping is not modelled.
- Body fields that are not strings are left out: `.trim` is not a function on a non-string, so such a field would throw.
- bcrypt's salting, its cost computation and its timing are left out. Hashing is a symbolic digest.
- `Bcrypt.Hash`: the digest is modelled as injective and as distinct from every candidate string, so its contract says `compare` accepts exactly the plaintext hashed. bcrypt uses only the first 72 bytes of the UTF-8 password, and a digest is itself a string a caller can submit; neither the 72-byte truncation nor digests as submittable strings is modelled. What holds for bcrypt as well is that the hash differs from its input and that `compare` accepts the plaintext hashed.
- `Bcrypt.RehashMatchesNothing`: rests on the same injective digest. For bcrypt only "the original plaintext no longer matches a double hash" holds; the text of the first digest does match it.
- `UserModel.SavedPasswordVerifies`: "`isPasswordCorrect(q)` exactly for `q == p`" rests on the injective digest. bcrypt also accepts any q that shares its first 72 bytes with p; the directions that hold for bcrypt are that p is accepted and that the stored value is not p.
- `RegistrationProperties.RegisterStoresNormalisedRecord`: "`compare` accepts exactly the given password" rests on the injective digest, with the same 72-byte caveat as `UserModel.SavedPasswordVerifies`.
- Mongoose's validation messages are left out, and several validation errors collapse to one `ValidationError`.
- `watchHistory` is carried as an opaque list of ids, always empty on this path; only its `ref: "Video"` link (src/models/user.model.js:34-39) is left out. The `index: true` options are left out too, because they change performance only.
- A re-save in the model replaces the whole record. Mongoose sends only the modified paths, which gives the same record for a document loaded from the collection.
- `UserModel.UserDocument.IsPasswordCorrect` carries no contract of its own. What it returns is stated by `UserModel.PasswordCorrect` and by the `Save` postcondition.

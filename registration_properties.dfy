/**
 * What `registerUser` promises, stated over `Register`: which check decides
 * each failure, what a successful registration stores and returns, and that
 * the collection's invariants survive every registration.
 */
module RegistrationProperties {
  import opened Wrappers
  import opened JsString
  import opened Bcrypt
  import opened Cloudinary
  import opened UserModel
  import opened UserController

  /** None of the four checked fields is set to a blank string (unset fields are allowed). */
  predicate NoBlankField(req: Request) {
    !IsBlank(req.username) && !IsBlank(req.fullName) && !IsBlank(req.email) && !IsBlank(req.password)
  }

  /** No stored record has the request's username or email, as the schema's setters cast them. */
  predicate Unregistered(records: seq<UserRecord>, req: Request) {
    forall i :: 0 <= i < |records| ==> !MatchesKeys(records[i], CastKeyOption(req.username), CastKeyOption(req.email))
  }

  /** The request carries an avatar file with a non-empty local path. */
  predicate HasAvatarFile(req: Request) {
    req.files.Some? && req.files.value.avatar.Some? && |req.files.value.avatar.value| > 0
    && req.files.value.avatar.value[0].path != ""
  }

  /** All four body fields are set. */
  predicate AllFieldsSet(req: Request) {
    req.username.Some? && req.email.Some? && req.fullName.Some? && req.password.Some?
  }

  /** The handler's `.some(...)` check passes exactly when no checked field is blank. */
  lemma NoBlankFieldIsNotAnyBlank(req: Request)
    ensures !AnyBlank(CheckedFields(req)) <==> NoBlankField(req)
  {
    var f := CheckedFields(req);
    if !NoBlankField(req) {
      if IsBlank(req.username) { assert IsBlank(f[0]); }
      else if IsBlank(req.fullName) { assert IsBlank(f[1]); }
      else if IsBlank(req.email) { assert IsBlank(f[2]); }
      else { assert IsBlank(f[3]); }
    }
  }

  /** The duplicate query finds nothing exactly when no record has the cast username or email. */
  lemma UnregisteredIsFindOneNone(records: seq<UserRecord>, req: Request)
    ensures FindOne(records, CastKeyOption(req.username), CastKeyOption(req.email)).None? <==> Unregistered(records, req)
  {
  }

  /** A set field that is blank once trimmed fails with 400, whatever the later checks would say; nothing is stored or uploaded. */
  lemma RegisterRejectsBlankField(records: seq<UserRecord>, req: Request, answers: UploadAnswers)
    requires !NoBlankField(req)
    ensures Register(records, req, answers) == Outcome(Failed(ApiError(400, "All fields are required")), records, [])
  {
    NoBlankFieldIsNotAnyBlank(req);
  }

  /**
   * A request whose cast username or email is already stored fails with
   * 409 once the fields are not blank, whatever the files and uploads would
   * give; nothing is stored or uploaded.
   */
  lemma RegisterRejectsDuplicate(records: seq<UserRecord>, req: Request, answers: UploadAnswers, i: nat)
    requires NoBlankField(req)
    requires i < |records|
    requires (req.username.Some? && records[i].username == CastKey(req.username.value))
          || (req.email.Some? && records[i].email == CastKey(req.email.value))
    ensures Register(records, req, answers) == Outcome(Failed(ApiError(409, "User already exists")), records, [])
  {
    NoBlankFieldIsNotAnyBlank(req);
    UnregisteredIsFindOneNone(records, req);
    assert MatchesKeys(records[i], CastKeyOption(req.username), CastKeyOption(req.email));
  }

  /** Without an avatar file the third check fails with 400 before anything is uploaded. */
  lemma RegisterRequiresAvatarFile(records: seq<UserRecord>, req: Request, answers: UploadAnswers)
    requires NoBlankField(req) && Unregistered(records, req)
    requires !HasAvatarFile(req)
    ensures Register(records, req, answers) == Outcome(Failed(ApiError(400, "Avatar must be required")), records, [])
  {
    NoBlankFieldIsNotAnyBlank(req);
    UnregisteredIsFindOneNone(records, req);
  }

  /**
   * When the avatar upload fails the fourth check fails with 400 and nothing
   * is stored, but both the avatar and any cover image have been sent to the
   * upload service.
   */
  lemma RegisterReportsFailedAvatarUpload(records: seq<UserRecord>, req: Request, answers: UploadAnswers)
    requires NoBlankField(req) && Unregistered(records, req) && HasAvatarFile(req)
    requires answers.avatar.None?
    ensures var o := Register(records, req, answers);
      o.result == Failed(ApiError(400, "Avatar upload failed")) && o.records == records
      && o.uploads == [req.files.value.avatar.value[0].path] + SentToService(CoverLocalPath(req.files))
  {
    NoBlankFieldIsNotAnyBlank(req);
    UnregisteredIsFindOneNone(records, req);
  }

  /**
   * An unset field passes the blank check and fails only after the uploads:
   * an unset username throws at `username.toLowerCase()`, any other unset
   * field fails the schema's `required` rule. Nothing is stored.
   */
  lemma RegisterUnsetFieldFailsLate(records: seq<UserRecord>, req: Request, answers: UploadAnswers)
    requires NoBlankField(req) && Unregistered(records, req) && HasAvatarFile(req)
    requires answers.avatar.Some?
    requires !AllFieldsSet(req)
    ensures var o := Register(records, req, answers);
      o.result == Failed(if req.username.None? then TypeError else Mongoose(ValidationError))
      && o.records == records && o.uploads != [] && o.uploads[0] == req.files.value.avatar.value[0].path
  {
    NoBlankFieldIsNotAnyBlank(req);
    UnregisteredIsFindOneNone(records, req);
  }

  /** The cover image's upload result for this request. */
  function CoverUpload(req: Request, answers: UploadAnswers): Option<UploadResponse> {
    UploadOnCloudinary(CoverLocalPath(req.files), answers.coverImage)
  }

  /** The local paths sent to the upload service once the avatar check has passed: the avatar's, then any cover's. */
  function UploadsOf(req: Request): seq<string>
    requires HasAvatarFile(req)
  {
    [req.files.value.avatar.value[0].path] + SentToService(CoverLocalPath(req.files))
  }

  /** The record a successful registration of `req` stores under `_id` `id`. */
  function RegisteredRecord(id: nat, req: Request, avatar: UploadResponse, cover: Option<UploadResponse>): UserRecord
    requires AllFieldsSet(req)
  {
    UserRecord(id, Trim(ToLowerCase(req.username.value)), Trim(ToLowerCase(req.email.value)),
               Trim(req.fullName.value), avatar.url, Some(CoverUrl(cover)), [],
               Hash(Plain(req.password.value), SaltRounds), None)
  }

  /** Once the checks and the avatar upload have passed and a username is set, the outcome is that of `User.create`. */
  lemma RegisterReachesCreate(records: seq<UserRecord>, req: Request, answers: UploadAnswers)
    requires NoBlankField(req) && Unregistered(records, req) && HasAvatarFile(req)
    requires answers.avatar.Some? && req.username.Some?
    ensures var created := CreateUser(records, req, answers.avatar.value, CoverUpload(req, answers));
      Register(records, req, answers) == Outcome(created.0, created.1, UploadsOf(req))
  {
    NoBlankFieldIsNotAnyBlank(req);
    UnregisteredIsFindOneNone(records, req);
  }

  /**
   * For a new, unblank username and email, `User.create` succeeds exactly
   * when all four fields are set and the avatar URL is not empty, and fails
   * schema validation otherwise; on success it appends the record
   * `RegisteredRecord` describes and answers 201 with its public view.
   */
  lemma CreateUserSucceedsExactlyWhen(records: seq<UserRecord>, req: Request, avatar: UploadResponse, cover: Option<UploadResponse>)
    requires req.username.Some? && NoBlankField(req) && Unregistered(records, req)
    ensures var o := CreateUser(records, req, avatar, cover);
      (o.0.Created? <==> AllFieldsSet(req) && avatar.url != "")
      && (!o.0.Created? ==> o.0 == Failed(Mongoose(ValidationError)))
      && (o.0.Created? ==>
            var rec := RegisteredRecord(|records|, req, avatar, cover);
            o.1 == records + [rec] && o.0 == Created(201, Select(rec)))
  {
    if AllFieldsSet(req) && avatar.url != "" {
      CreateUserStoresRecord(records, req, avatar, cover);
    } else {
      CreateUserFailsValidation(records, req, avatar, cover);
    }
  }

  /** The success half of `CreateUserSucceedsExactlyWhen`. */
  lemma CreateUserStoresRecord(records: seq<UserRecord>, req: Request, avatar: UploadResponse, cover: Option<UploadResponse>)
    requires NoBlankField(req) && Unregistered(records, req)
    requires AllFieldsSet(req) && avatar.url != ""
    ensures var rec := RegisteredRecord(|records|, req, avatar, cover);
      CreateUser(records, req, avatar, cover) == (Created(201, Select(rec)), records + [rec])
  {
    var d := NewDocument(CreateFields(req, avatar, cover), req.password);
    assert !AllWhiteSpace(req.username.value) && !AllWhiteSpace(req.email.value);
    assert !AllWhiteSpace(req.fullName.value) && !AllWhiteSpace(req.password.value);
    assert Validates(d);
    var rec := ToRecord(d.(password := Some(HashOnSave(d.password.value, d.passwordModified))), |records|);
    assert rec == RegisteredRecord(|records|, req, avatar, cover);
    assert MatchesKeys(rec, Some(rec.username), Some(rec.email));
    FindOneNoneMeansNoCollision(records, rec);
    var saved := SaveDocument(records, d);
    assert saved.result == Ok(rec) && saved.records == records + [rec];
    assert FindById(saved.records, rec.id) == Some(rec);
  }

  /** The failure half of `CreateUserSucceedsExactlyWhen`: an unset field or an empty avatar URL fails validation. */
  lemma CreateUserFailsValidation(records: seq<UserRecord>, req: Request, avatar: UploadResponse, cover: Option<UploadResponse>)
    requires req.username.Some? && NoBlankField(req)
    requires !(AllFieldsSet(req) && avatar.url != "")
    ensures CreateUser(records, req, avatar, cover) == (Failed(Mongoose(ValidationError)), records)
  {
    var d := NewDocument(CreateFields(req, avatar, cover), req.password);
    assert !Validates(d);
  }

  /**
   * Registration succeeds exactly when every check passes, the avatar upload
   * answers with a non-empty URL and all four fields are set.
   */
  lemma RegisterSucceedsExactlyWhen(records: seq<UserRecord>, req: Request, answers: UploadAnswers)
    ensures Register(records, req, answers).result.Created? <==>
      NoBlankField(req) && Unregistered(records, req) && HasAvatarFile(req) && AllFieldsSet(req)
      && answers.avatar.Some? && answers.avatar.value.url != ""
  {
    NoBlankFieldIsNotAnyBlank(req);
    UnregisteredIsFindOneNone(records, req);
    if NoBlankField(req) && Unregistered(records, req) && HasAvatarFile(req) && answers.avatar.Some? && req.username.Some? {
      RegisterReachesCreate(records, req, answers);
      CreateUserSucceedsExactlyWhen(records, req, answers.avatar.value, CoverUpload(req, answers));
    }
  }

  /**
   * A successful registration appends exactly one record and changes no
   * other: the next `_id`, the username lower-cased and trimmed, the email
   * cast the same way, fullName trimmed, the avatar's URL, the cover's URL
   * or "" without one, the digest of the password (never the plaintext,
   * and accepted by `isPasswordCorrect` for exactly that password), no
   * refresh token. The response is 201 with that record minus its secrets.
   */
  lemma RegisterStoresNormalisedRecord(records: seq<UserRecord>, req: Request, answers: UploadAnswers)
    requires Register(records, req, answers).result.Created?
    ensures AllFieldsSet(req) && answers.avatar.Some?
    ensures var o := Register(records, req, answers);
      var rec := RegisteredRecord(|records|, req, answers.avatar.value, CoverUpload(req, answers));
      o.records == records + [rec] && o.result == Created(201, Select(rec))
      && rec.username == Trim(ToLowerCase(req.username.value))
      && rec.avatar == answers.avatar.value.url
      && rec.coverImage == Some(if CoverUpload(req, answers).Some? then CoverUpload(req, answers).value.url else "")
      && rec.password != Plain(req.password.value)
      && forall q :: Compare(q, rec.password) <==> q == req.password.value
  {
    RegisterSucceedsExactlyWhen(records, req, answers);
    RegisterReachesCreate(records, req, answers);
    CreateUserSucceedsExactlyWhen(records, req, answers.avatar.value, CoverUpload(req, answers));
  }

  /** Registration never trips the unique index and never reaches the "User creation failed" branch. */
  lemma RegisterNeverDuplicateKeyOrNotFound(records: seq<UserRecord>, req: Request, answers: UploadAnswers)
    ensures Register(records, req, answers).result != Failed(Mongoose(DuplicateKey))
    ensures Register(records, req, answers).result != Failed(ApiError(500, "User creation failed"))
  {
    NoBlankFieldIsNotAnyBlank(req);
    UnregisteredIsFindOneNone(records, req);
    if NoBlankField(req) && Unregistered(records, req) && HasAvatarFile(req) && answers.avatar.Some? && req.username.Some? {
      RegisterReachesCreate(records, req, answers);
      CreateUserSucceedsExactlyWhen(records, req, answers.avatar.value, CoverUpload(req, answers));
    }
  }

  /** Registration keeps the collection's invariant: unique keys, cast and required paths, only digests stored. */
  lemma RegisterKeepsStoreValid(records: seq<UserRecord>, req: Request, answers: UploadAnswers)
    requires StoreValid(records)
    ensures StoreValid(Register(records, req, answers).records)
  {
    if Register(records, req, answers).result.Created? {
      RegisterSucceedsExactlyWhen(records, req, answers);
      RegisterReachesCreate(records, req, answers);
      var d := NewDocument(CreateFields(req, answers.avatar.value, CoverUpload(req, answers)), req.password);
      SaveKeepsInvariants(records, d);
    }
  }

  /** Nothing is sent to the upload service unless the first three checks passed, and the avatar goes first. */
  lemma RegisterUploadsOnlyAfterChecks(records: seq<UserRecord>, req: Request, answers: UploadAnswers)
    ensures var o := Register(records, req, answers);
      o.uploads != [] ==>
        NoBlankField(req) && Unregistered(records, req) && HasAvatarFile(req)
        && o.uploads[0] == req.files.value.avatar.value[0].path
  {
    NoBlankFieldIsNotAnyBlank(req);
    UnregisteredIsFindOneNone(records, req);
    if NoBlankField(req) && Unregistered(records, req) && HasAvatarFile(req) && answers.avatar.Some? && req.username.Some? {
      RegisterReachesCreate(records, req, answers);
    }
  }

  /** Once a username is registered, registering it again in any letter case fails with 409. */
  lemma RegisterSameUsernameAgainConflicts(records: seq<UserRecord>, first: Request, again: Request,
                                           answers1: UploadAnswers, answers2: UploadAnswers)
    requires Register(records, first, answers1).result.Created?
    requires NoBlankField(again) && again.username.Some?
    requires ToLowerCase(again.username.value) == ToLowerCase(first.username.value)
    ensures var after := Register(records, first, answers1).records;
      Register(after, again, answers2) == Outcome(Failed(ApiError(409, "User already exists")), after, [])
  {
    RegisterStoresNormalisedRecord(records, first, answers1);
    var after := Register(records, first, answers1).records;
    CastKeyOfLowerCase(again.username.value);
    CastKeyOfLowerCase(first.username.value);
    assert after[|records|].username == CastKey(again.username.value);
    RegisterRejectsDuplicate(after, again, answers2, |records|);
  }
}

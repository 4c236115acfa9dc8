/**
 * The `registerUser` request handler: four checks in a fixed order, the
 * two uploads, one `User.create`, and the created record read back without
 * its secret fields.
 */
module UserController {
  import opened Wrappers
  import opened JsString
  import opened Cloudinary
  import opened UserModel

  /** A file multer stored on disk for a form field. */
  datatype LocalFile = LocalFile(path: string)

  /** `req.files` as `upload.fields(...)` fills it in; a form field that received no file is unset. */
  datatype Files = Files(avatar: Option<seq<LocalFile>>, coverImage: Option<seq<LocalFile>>)

  /** The parts of the request the handler reads; `files` is unset when the request was not multipart. */
  datatype Request = Request(
    fullName: Option<string>,
    email: Option<string>,
    username: Option<string>,
    password: Option<string>,
    files: Option<Files>)

  /** What the upload service would answer for the avatar and for the cover image; `None` when that upload throws. */
  datatype UploadAnswers = UploadAnswers(avatar: Option<UploadResponse>, coverImage: Option<UploadResponse>)

  /**
   * How the handler fails: an `ApiError` it throws itself, a `TypeError`
   * from reading a property of `undefined`, or an error from `User.create`.
   */
  datatype Failure = ApiError(statusCode: int, message: string) | TypeError | Mongoose(error: MongoError)

  /** The response: 201 with the created user, or the failure passed on to the error handler. */
  datatype RegisterResult = Created(statusCode: int, user: PublicUser) | Failed(failure: Failure)

  /** A registration's result, the collection after it, and the local paths sent to the upload service, in order. */
  datatype Outcome = Outcome(result: RegisterResult, records: seq<UserRecord>, uploads: seq<string>)

  /** `field?.trim() === ""`: a field that is set and holds only white space; an unset field is not blank. */
  predicate IsBlank(field: Option<string>) {
    field.Some? && AllWhiteSpace(field.value)
  }

  /** `fields.some((field) => field?.trim() === "")`: some field is set and empty once trimmed. */
  function AnyBlank(fields: seq<Option<string>>): (b: bool)
    ensures b <==> exists i :: 0 <= i < |fields| && IsBlank(fields[i])
  {
    if fields == [] then false
    else
      var rest := AnyBlank(fields[1..]);
      assert rest <==> exists i :: 1 <= i < |fields| && IsBlank(fields[i]) by {
        if rest {
          var i :| 0 <= i < |fields[1..]| && IsBlank(fields[1..][i]);
          assert IsBlank(fields[i + 1]);
        }
      }
      (fields[0].Some? && Trim(fields[0].value) == "") || rest
  }

  /** The fields the handler validates, in the source's order. */
  function CheckedFields(req: Request): seq<Option<string>> {
    [req.username, req.fullName, req.email, req.password]
  }

  /** `list[0]?.path`. */
  function FirstPath(list: seq<LocalFile>): Option<string> {
    if |list| == 0 then None else Some(list[0].path)
  }

  /**
   * `req.files?.avatar[0]?.path` as written: with `req.files` set but no
   * avatar field, `avatar[0]` reads a property of `undefined` and throws.
   */
  function AvatarLocalPathAsWritten(files: Option<Files>): (r: Result<Option<string>, Failure>)
    ensures r.Err? <==> files.Some? && files.value.avatar.None?
    ensures r.Err? ==> r.error == TypeError
  {
    if files.None? then Ok(None)
    else if files.value.avatar.None? then Err(TypeError)
    else Ok(FirstPath(files.value.avatar.value))
  }

  /** A request with only a cover image makes the written avatar lookup throw instead of reaching the 400 check. */
  lemma AvatarLookupThrowsWithoutAvatar()
    ensures AvatarLocalPathAsWritten(Some(Files(None, Some([LocalFile("./public/temp/coverImage-1")])))) == Err(TypeError)
  {
  }

  /**
   * `req.files?.avatar?.[0]?.path`, the lookup the 400 check evidently
   * expects: the first avatar file's path, and unset exactly when no avatar
   * file came with the request. It agrees with the written lookup wherever
   * that one does not throw.
   */
  function AvatarLocalPath(files: Option<Files>): (r: Option<string>)
    ensures r.Some? <==> files.Some? && files.value.avatar.Some? && |files.value.avatar.value| > 0
    ensures r.Some? ==> r.value == files.value.avatar.value[0].path
    ensures AvatarLocalPathAsWritten(files).Ok? ==> AvatarLocalPathAsWritten(files).value == r
    ensures AvatarLocalPathAsWritten(files).Err? ==> r == None
  {
    if files.None? || files.value.avatar.None? then None
    else FirstPath(files.value.avatar.value)
  }

  /**
   * `if (req.files?.coverImage) coverLocalPath = req.files?.coverImage[0]?.path`:
   * the first cover file's path, unset when none came with the request.
   */
  function CoverLocalPath(files: Option<Files>): (r: Option<string>)
    ensures r.Some? <==> files.Some? && files.value.coverImage.Some? && |files.value.coverImage.value| > 0
    ensures r.Some? ==> r.value == files.value.coverImage.value[0].path
  {
    if files.Some? && files.value.coverImage.Some? then FirstPath(files.value.coverImage.value) else None
  }

  /** `coverImage?.url || ""`. */
  function CoverUrl(coverImage: Option<UploadResponse>): (u: string)
    ensures u == "" <==> coverImage.None? || coverImage.value.url == ""
    ensures u != "" ==> u == coverImage.value.url
  {
    if coverImage.Some? then coverImage.value.url else ""
  }

  /** The fields `User.create` receives once the avatar has been uploaded. */
  function CreateFields(req: Request, avatar: UploadResponse, coverImage: Option<UploadResponse>): (p: Profile)
    requires req.username.Some?
    ensures ApplySetters(p).username == Some(CastKey(req.username.value))
    ensures p.email == req.email && p.fullName == req.fullName
    ensures p.avatar == Some(avatar.url) && p.coverImage == Some(CoverUrl(coverImage))
  {
    CastKeyOfLowerCase(req.username.value);
    Profile(Some(ToLowerCase(req.username.value)), req.email, req.fullName, Some(avatar.url), Some(CoverUrl(coverImage)))
  }

  /**
   * `User.create({...})` and then `findById(user._id).select(...)`: the
   * response and the collection after it. A failed `create` leaves the
   * collection as it was; a successful one appends exactly one record.
   */
  function CreateUser(records: seq<UserRecord>, req: Request, avatar: UploadResponse, coverImage: Option<UploadResponse>)
    : (o: (RegisterResult, seq<UserRecord>))
    requires req.username.Some?
    ensures o.0.Created? ==> |o.1| == |records| + 1 && o.1[..|records|] == records
    ensures !o.0.Created? ==> o.1 == records
  {
    var saved := SaveDocument(records, NewDocument(CreateFields(req, avatar, coverImage), req.password));
    if saved.result.Err? then
      (Failed(Mongoose(saved.result.error)), saved.records)
    else
      var userCreated := FindById(saved.records, saved.result.value.id);
      if userCreated.None? then
        (Failed(ApiError(500, "User creation failed")), saved.records)
      else
        (Created(201, Select(userCreated.value)), saved.records)
  }

  /**
   * `registerUser` on a collection holding `records`. The duplicate check
   * casts its filter values through the schema's setters, as Mongoose does
   * for query filters. A failure other than a failed `User.create` is decided
   * before anything is written; in every case the collection changes by at
   * most the one record appended on success.
   */
  function Register(records: seq<UserRecord>, req: Request, answers: UploadAnswers): (o: Outcome)
    ensures o.result.Created? ==> |o.records| == |records| + 1 && o.records[..|records|] == records
    ensures !o.result.Created? ==> o.records == records
  {
    if AnyBlank(CheckedFields(req)) then
      Outcome(Failed(ApiError(400, "All fields are required")), records, [])
    else if FindOne(records, CastKeyOption(req.username), CastKeyOption(req.email)).Some? then
      Outcome(Failed(ApiError(409, "User already exists")), records, [])
    else
      var avatarLocalPath := AvatarLocalPath(req.files);
      var coverLocalPath := CoverLocalPath(req.files);
      if !Truthy(avatarLocalPath) then
        Outcome(Failed(ApiError(400, "Avatar must be required")), records, [])
      else
        var avatar := UploadOnCloudinary(avatarLocalPath, answers.avatar);
        var coverImage := UploadOnCloudinary(coverLocalPath, answers.coverImage);
        var uploads := SentToService(avatarLocalPath) + SentToService(coverLocalPath);
        if avatar.None? then
          Outcome(Failed(ApiError(400, "Avatar upload failed")), records, uploads)
        else if req.username.None? then
          Outcome(Failed(TypeError), records, uploads)
        else
          var created := CreateUser(records, req, avatar.value, coverImage);
          Outcome(created.0, created.1, uploads)
  }

  /** The handler on the collection object: the same checks in the same order, `User.create` as `new User` and `save()`. */
  method RegisterUser(users: UserCollection, req: Request, answers: UploadAnswers)
    returns (result: RegisterResult, uploads: seq<string>)
    requires users.Valid()
    modifies users
    ensures users.Valid()
    ensures var o := Register(old(users.records), req, answers);
      result == o.result && uploads == o.uploads && users.records == o.records
  {
    if AnyBlank(CheckedFields(req)) {
      return Failed(ApiError(400, "All fields are required")), [];
    }
    var existUser := FindOne(users.records, CastKeyOption(req.username), CastKeyOption(req.email));
    if existUser.Some? {
      return Failed(ApiError(409, "User already exists")), [];
    }
    var avatarLocalPath := AvatarLocalPath(req.files);
    var coverLocalPath: Option<string> := None;
    if req.files.Some? && req.files.value.coverImage.Some? {
      coverLocalPath := FirstPath(req.files.value.coverImage.value);
    }
    if !Truthy(avatarLocalPath) {
      return Failed(ApiError(400, "Avatar must be required")), [];
    }
    var avatar := UploadOnCloudinary(avatarLocalPath, answers.avatar);
    var coverImage := UploadOnCloudinary(coverLocalPath, answers.coverImage);
    uploads := SentToService(avatarLocalPath) + SentToService(coverLocalPath);
    if avatar.None? {
      return Failed(ApiError(400, "Avatar upload failed")), uploads;
    }
    if req.username.None? {
      return Failed(TypeError), uploads;
    }
    var user := new UserDocument(CreateFields(req, avatar.value, coverImage), req.password);
    var saved := user.Save(users);
    if saved.Err? {
      return Failed(Mongoose(saved.error)), uploads;
    }
    var userCreated := FindById(users.records, saved.value.id);
    if userCreated.None? {
      return Failed(ApiError(500, "User creation failed")), uploads;
    }
    result := Created(201, Select(userCreated.value));
  }
}

/**
 * The `User` model: the schema's paths and their setters and `required`
 * rules, the unique indexes on username and email, the pre-save hook that
 * hashes a modified password, `isPasswordCorrect`, and the collection the
 * model saves into.
 */
module UserModel {
  import opened Wrappers
  import opened JsString
  import opened Bcrypt

  /** What `save` can fail with: schema validation, or the driver's duplicate-key error from a unique index. */
  datatype MongoError = ValidationError | DuplicateKey

  /** What `bcrypt.compare` throws when it is given no hash to compare with. */
  datatype CompareError = IllegalArguments

  /** The string paths of a user document other than the password; `None` is a path left unset. */
  datatype Profile = Profile(
    username: Option<string>,
    email: Option<string>,
    fullName: Option<string>,
    avatar: Option<string>,
    coverImage: Option<string>)

  /**
   * A user document in memory. `id` is `None` while the document is new
   * (Mongoose's `isNew`); the ObjectId Mongoose assigns at construction is
   * modelled as the position given at the first successful insert.
   * `passwordModified` is what `isModified("password")` reports.
   */
  datatype Document = Document(
    id: Option<nat>,
    profile: Profile,
    password: Option<Password>,
    passwordModified: bool,
    refreshToken: Option<string>,
    watchHistory: seq<nat>)

  /** A stored user record; `id` stands for the `_id` ObjectId. */
  datatype UserRecord = UserRecord(
    id: nat,
    username: string,
    email: string,
    fullName: string,
    avatar: string,
    coverImage: Option<string>,
    watchHistory: seq<nat>,
    password: Password,
    refreshToken: Option<string>)

  /** A user record as `select("-password -refreshToken")` returns it. */
  datatype PublicUser = PublicUser(
    id: nat,
    username: string,
    email: string,
    fullName: string,
    avatar: string,
    coverImage: Option<string>,
    watchHistory: seq<nat>)

  /** The outcome of one `save`: its result, the collection after it, and the document after it. */
  datatype SaveOutcome = SaveOutcome(result: Result<UserRecord, MongoError>, records: seq<UserRecord>, doc: Document)

  // ---------------------------------------------------------------------------
  // Schema paths

  /**
   * The `lowercase` and then `trim` setters of the username and email paths:
   * the stored key is lower case and trimmed, and empty only for a blank input.
   */
  function CastKey(s: string): (r: string)
    ensures IsLowerCase(r) && IsTrimmed(r)
    ensures r == [] <==> AllWhiteSpace(s)
  {
    ToLowerCaseKeepsBlankness(s);
    TrimKeepsLowerCase(ToLowerCase(s));
    Trim(ToLowerCase(s))
  }

  /** Casting a lower-cased key is casting the key: the controller's own `toLowerCase` changes nothing the setters would not. */
  lemma CastKeyOfLowerCase(s: string)
    ensures CastKey(ToLowerCase(s)) == CastKey(s)
  {
    ToLowerCaseIdempotent(s);
  }

  /** `CastKey` on a path that may be unset. */
  function CastKeyOption(o: Option<string>): Option<string> {
    if o.Some? then Some(CastKey(o.value)) else None
  }

  /** The `trim` setter of the fullName path on a path that may be unset. */
  function TrimOption(o: Option<string>): Option<string> {
    if o.Some? then Some(Trim(o.value)) else None
  }

  /** Every set username and email is lower case and trimmed, and a set fullName is trimmed. */
  predicate ProfileCast(p: Profile) {
    (p.username.Some? ==> IsLowerCase(p.username.value) && IsTrimmed(p.username.value))
    && (p.email.Some? ==> IsLowerCase(p.email.value) && IsTrimmed(p.email.value))
    && (p.fullName.Some? ==> IsTrimmed(p.fullName.value))
  }

  /**
   * The schema's setters, applied as a document is built: the keys are cast,
   * fullName is trimmed, unset paths stay unset and the image paths are untouched.
   */
  function ApplySetters(p: Profile): (q: Profile)
    ensures ProfileCast(q)
    ensures q.username.Some? <==> p.username.Some?
    ensures q.email.Some? <==> p.email.Some?
    ensures q.fullName.Some? <==> p.fullName.Some?
    ensures q.avatar == p.avatar && q.coverImage == p.coverImage
  {
    Profile(CastKeyOption(p.username), CastKeyOption(p.email), TrimOption(p.fullName), p.avatar, p.coverImage)
  }

  /** Mongoose's `required` rule for a string path: set, and not the empty string. */
  predicate Present(s: Option<string>) {
    s.Some? && s.value != ""
  }

  /** Schema validation: username, email, fullName, avatar and password are required. */
  predicate Validates(d: Document) {
    Present(d.profile.username) && Present(d.profile.email) && Present(d.profile.fullName)
    && Present(d.profile.avatar) && d.password.Some? && d.password.value != Plain("")
  }

  /**
   * With the setters applied, `required` rejects a blank username, email or
   * fullName: the trim setter turns it into the empty string it refuses.
   */
  lemma RequiredRejectsBlank(d: Document)
    requires ProfileCast(d.profile)
    ensures d.profile.username.Some? && AllWhiteSpace(d.profile.username.value) ==> !Validates(d)
    ensures d.profile.email.Some? && AllWhiteSpace(d.profile.email.value) ==> !Validates(d)
    ensures d.profile.fullName.Some? && AllWhiteSpace(d.profile.fullName.value) ==> !Validates(d)
  {
  }

  /** The pre-save hook on the password path: hash it when it was modified, keep it otherwise. */
  function HashOnSave(p: Password, modified: bool): (h: Password)
    ensures modified ==> h.Digest? && h != p && (p.Plain? ==> Compare(p.text, h))
    ensures !modified ==> h == p
  {
    if modified then Hash(p, SaltRounds) else p
  }

  /**
   * What a document must satisfy between operations: its paths are cast, a
   * modified password is set, and a plaintext password is always still
   * waiting to be hashed.
   */
  predicate DocumentValid(d: Document) {
    ProfileCast(d.profile)
    && (d.passwordModified ==> d.password.Some?)
    && (d.password.Some? && d.password.value.Plain? ==> d.passwordModified)
  }

  /** A saved document refers to a record of `records`. */
  predicate IdWithin(d: Document, records: seq<UserRecord>) {
    d.id.Some? ==> d.id.value < |records|
  }

  /**
   * `new User(fields)`: the setters run, the document is new (`isNew`), and
   * the password path counts as modified exactly when a password was given.
   */
  function NewDocument(p: Profile, plaintext: Option<string>): (d: Document)
    ensures DocumentValid(d) && d.id == None
    ensures d.profile == ApplySetters(p)
    ensures d.passwordModified <==> plaintext.Some?
    ensures plaintext.Some? ==> d.password == Some(Plain(plaintext.value))
  {
    Document(None, ApplySetters(p), if plaintext.Some? then Some(Plain(plaintext.value)) else None,
             plaintext.Some?, None, [])
  }

  /** The record a validated document is written as, under the given `_id`. */
  function ToRecord(d: Document, id: nat): UserRecord
    requires Validates(d)
  {
    UserRecord(id, d.profile.username.value, d.profile.email.value, d.profile.fullName.value,
               d.profile.avatar.value, d.profile.coverImage, d.watchHistory, d.password.value, d.refreshToken)
  }

  /** `userSchema.methods.isPasswordCorrect(candidate)` on a document whose password path is `stored`. */
  function PasswordCorrect(candidate: string, stored: Option<Password>): (r: Result<bool, CompareError>)
    ensures r.Err? <==> stored.None?
    ensures r == Ok(true) ==> stored.value != Plain(candidate)
    ensures stored.Some? && stored.value.Plain? ==> r == Ok(false)
    ensures stored.Some? && stored.value == Hash(Plain(candidate), SaltRounds) ==> r == Ok(true)
  {
    if stored.None? then Err(IllegalArguments) else Ok(Compare(candidate, stored.value))
  }

  /** `select("-password -refreshToken")`. */
  function Select(r: UserRecord): (u: PublicUser)
    ensures UserRecord(u.id, u.username, u.email, u.fullName, u.avatar, u.coverImage, u.watchHistory,
                       r.password, r.refreshToken) == r
  {
    PublicUser(r.id, r.username, r.email, r.fullName, r.avatar, r.coverImage, r.watchHistory)
  }

  /** The selection drops the two secret fields and nothing else: two records look alike exactly when only those differ. */
  lemma SelectDropsOnlySecrets(a: UserRecord, b: UserRecord)
    ensures Select(a) == Select(b) <==> a.(password := b.password, refreshToken := b.refreshToken) == b
  {
  }

  // ---------------------------------------------------------------------------
  // The collection

  /** The schema's rules as they hold of every stored record. */
  predicate SchemaValid(r: UserRecord) {
    r.username != "" && IsLowerCase(r.username) && IsTrimmed(r.username)
    && r.email != "" && IsLowerCase(r.email) && IsTrimmed(r.email)
    && r.fullName != "" && IsTrimmed(r.fullName)
    && r.avatar != ""
    && r.password.Digest?
  }

  /** The unique indexes: no two records share a username, and no two share an email. */
  predicate UniqueKeys(records: seq<UserRecord>) {
    forall i, j :: 0 <= i < j < |records| ==>
      records[i].username != records[j].username && records[i].email != records[j].email
  }

  /** The collection's invariant: each `_id` is the record's position, every record is schema-valid, the keys are unique. */
  predicate StoreValid(records: seq<UserRecord>) {
    (forall i :: 0 <= i < |records| ==> records[i].id == i && SchemaValid(records[i]))
    && UniqueKeys(records)
  }

  /** Writing `rec` would break a unique index: another record has its username or its email. */
  predicate Collides(records: seq<UserRecord>, rec: UserRecord) {
    exists j :: 0 <= j < |records| && j != rec.id
      && (records[j].username == rec.username || records[j].email == rec.email)
  }

  /** The collection after `rec` is inserted (a new `_id`) or replaces the record with its `_id`. */
  function Written(records: seq<UserRecord>, rec: UserRecord): seq<UserRecord>
    requires rec.id <= |records|
  {
    if rec.id < |records| then records[rec.id := rec] else records + [rec]
  }

  /** A write that breaks no unique index keeps the collection's invariant. */
  lemma WrittenKeepsStoreValid(records: seq<UserRecord>, rec: UserRecord)
    requires StoreValid(records) && rec.id <= |records| && SchemaValid(rec)
    requires !Collides(records, rec)
    ensures StoreValid(Written(records, rec))
  {
    var w := Written(records, rec);
    forall i, j | 0 <= i < j < |w|
      ensures w[i].username != w[j].username && w[i].email != w[j].email
    {
      if i == rec.id {
        assert w[j] == records[j];
      } else if j == rec.id {
        assert w[i] == records[i];
      } else {
        assert w[i] == records[i] && w[j] == records[j];
      }
    }
  }

  /** A record matches the filter `{ $or: [{ username }, { email }] }`; an unset key matches nothing. */
  predicate MatchesKeys(r: UserRecord, username: Option<string>, email: Option<string>) {
    (username.Some? && r.username == username.value) || (email.Some? && r.email == email.value)
  }

  /**
   * `findOne({ $or: [{ username }, { email }] })` scanning in natural order
   * from `from`: the position of the first matching record, or `None` when
   * no record from `from` on matches.
   */
  function FindOneFrom(records: seq<UserRecord>, username: Option<string>, email: Option<string>, from: nat): (r: Option<nat>)
    requires from <= |records|
    ensures r.Some? ==>
      from <= r.value < |records| && MatchesKeys(records[r.value], username, email)
      && (forall j :: from <= j < r.value ==> !MatchesKeys(records[j], username, email))
    ensures r.None? ==> forall j :: from <= j < |records| ==> !MatchesKeys(records[j], username, email)
    decreases |records| - from
  {
    if from == |records| then None
    else if MatchesKeys(records[from], username, email) then Some(from)
    else FindOneFrom(records, username, email, from + 1)
  }

  /** `findOne({ $or: [{ username }, { email }] })` over the whole collection. */
  function FindOne(records: seq<UserRecord>, username: Option<string>, email: Option<string>): Option<nat> {
    FindOneFrom(records, username, email, 0)
  }

  /** `findById(id)`: `_id`s are positions in a valid collection. */
  function FindById(records: seq<UserRecord>, id: nat): (r: Option<UserRecord>)
    ensures r.Some? <==> id < |records|
    ensures r.Some? ==> r.value == records[id]
    ensures StoreValid(records) && r.Some? ==> r.value.id == id && SchemaValid(r.value)
  {
    if id < |records| then Some(records[id]) else None
  }

  /** A duplicate check that found nothing means the record it checked for breaks no unique index. */
  lemma FindOneNoneMeansNoCollision(records: seq<UserRecord>, rec: UserRecord)
    requires rec.id == |records|
    requires FindOne(records, Some(rec.username), Some(rec.email)) == None
    ensures !Collides(records, rec)
  {
    forall j | 0 <= j < |records|
      ensures records[j].username != rec.username && records[j].email != rec.email
    {
      assert !MatchesKeys(records[j], Some(rec.username), Some(rec.email));
    }
  }

  // ---------------------------------------------------------------------------
  // save()

  /**
   * `doc.save()`: validation first (a failure changes nothing); then the
   * pre-save hook; then the write under the unique indexes. A failed write
   * leaves the collection alone but the hook's work stays in the document,
   * still marked modified. A successful one gives the document its `_id`
   * and clears the modified mark.
   */
  function SaveDocument(records: seq<UserRecord>, d: Document): (o: SaveOutcome)
    requires IdWithin(d, records)
    ensures o.result.Err? ==> o.records == records
    ensures o.result.Ok? && d.id.None? ==>
      o.result.value.id == |records| && o.records == records + [o.result.value]
    ensures o.result.Ok? && d.id.Some? ==>
      o.result.value.id == d.id.value && o.records == records[d.id.value := o.result.value]
  {
    if !Validates(d) then SaveOutcome(Err(ValidationError), records, d)
    else
      var hooked := d.(password := Some(HashOnSave(d.password.value, d.passwordModified)));
      var rec := ToRecord(hooked, if d.id.Some? then d.id.value else |records|);
      if Collides(records, rec) then SaveOutcome(Err(DuplicateKey), records, hooked)
      else SaveOutcome(Ok(rec), Written(records, rec), hooked.(id := Some(rec.id), passwordModified := false))
  }

  /** A validated, hooked document of a valid kind is written as a schema-valid record. */
  lemma HookedRecordSchemaValid(d: Document, id: nat)
    requires DocumentValid(d) && Validates(d)
    ensures var hooked := d.(password := Some(HashOnSave(d.password.value, d.passwordModified)));
      Validates(hooked) && SchemaValid(ToRecord(hooked, id))
  {
  }

  /**
   * Saving keeps every invariant: the collection stays valid (unique keys,
   * cast and required paths, only digests stored), the document stays
   * valid and refers to a stored record; a failed save leaves the collection
   * as it was, a successful one stores exactly the record it returns.
   */
  lemma SaveKeepsInvariants(records: seq<UserRecord>, d: Document)
    requires StoreValid(records) && DocumentValid(d) && IdWithin(d, records)
    ensures var o := SaveDocument(records, d);
      StoreValid(o.records) && DocumentValid(o.doc) && IdWithin(o.doc, o.records)
      && (o.result.Err? ==> o.records == records)
      && (o.result.Ok? ==> o.doc.id == Some(o.result.value.id) && o.records[o.result.value.id] == o.result.value
                           && |o.records| == if d.id.Some? then |records| else |records| + 1)
  {
    if Validates(d) {
      var hooked := d.(password := Some(HashOnSave(d.password.value, d.passwordModified)));
      var rec := ToRecord(hooked, if d.id.Some? then d.id.value else |records|);
      HookedRecordSchemaValid(d, rec.id);
      if !Collides(records, rec) {
        WrittenKeepsStoreValid(records, rec);
      }
    }
  }

  /** A save of a modified password stores its digest, never the plaintext, and `isPasswordCorrect` then accepts exactly that plaintext. */
  lemma SavedPasswordVerifies(records: seq<UserRecord>, d: Document, p: string)
    requires IdWithin(d, records) && d.password == Some(Plain(p)) && d.passwordModified
    requires SaveDocument(records, d).result.Ok?
    ensures var o := SaveDocument(records, d);
      o.result.value.password == Hash(Plain(p), SaltRounds) && o.result.value.password != Plain(p)
      && forall q :: PasswordCorrect(q, o.doc.password) == Ok(q == p)
  {
  }

  /** The hook leaves an unmodified password alone: what is stored is exactly what the document held. */
  lemma UnmodifiedPasswordKept(records: seq<UserRecord>, d: Document)
    requires IdWithin(d, records) && !d.passwordModified
    ensures SaveDocument(records, d).doc.password == d.password
    ensures SaveDocument(records, d).result.Ok? ==> Some(SaveDocument(records, d).result.value.password) == d.password
  {
  }

  /**
   * Saving again after a successful save re-hashes nothing and changes
   * nothing: the hook is idempotent across repeated saves.
   */
  lemma SaveAgainChangesNothing(records: seq<UserRecord>, d: Document)
    requires StoreValid(records) && DocumentValid(d) && IdWithin(d, records)
    requires SaveDocument(records, d).result.Ok?
    ensures var o := SaveDocument(records, d);
      IdWithin(o.doc, o.records) && SaveDocument(o.records, o.doc) == o
  {
    var o := SaveDocument(records, d);
    SaveKeepsInvariants(records, d);
    var rec := o.result.value;
    var d2 := o.doc;
    assert Validates(d2);
    assert d2.password == Some(rec.password);
    var rec2 := ToRecord(d2.(password := Some(HashOnSave(d2.password.value, d2.passwordModified))), rec.id);
    assert rec2 == rec;
    assert o.records[rec.id] == rec;
    assert Written(o.records, rec) == o.records;
  }

  // ---------------------------------------------------------------------------
  // The imperative model: the collection and the document objects

  /** The MongoDB `users` collection, as the records it holds. */
  class UserCollection {
    var records: seq<UserRecord>

    ghost predicate Valid()
      reads this
    {
      StoreValid(records)
    }

    constructor ()
      ensures Valid() && records == []
    {
      records := [];
    }

    /**
     * `insertOne` (a new `_id`) or a replacement of the record with `rec`'s
     * `_id`, refused with a duplicate-key error when it would break a unique index.
     */
    method Write(rec: UserRecord) returns (r: Result<UserRecord, MongoError>)
      requires Valid() && rec.id <= |records| && SchemaValid(rec)
      modifies this
      ensures Valid()
      ensures r == if Collides(old(records), rec) then Err(DuplicateKey) else Ok(rec)
      ensures records == if r.Ok? then Written(old(records), rec) else old(records)
    {
      if Collides(records, rec) {
        return Err(DuplicateKey);
      }
      WrittenKeepsStoreValid(records, rec);
      records := Written(records, rec);
      return Ok(rec);
    }
  }

  /** A user document, whose password path the pre-save hook overwrites in place. */
  class UserDocument {
    var id: Option<nat>
    var profile: Profile
    var password: Option<Password>
    var passwordModified: bool
    var refreshToken: Option<string>
    var watchHistory: seq<nat>

    /** The document's paths as a value. */
    function State(): Document
      reads this
    {
      Document(id, profile, password, passwordModified, refreshToken, watchHistory)
    }

    /** `new User({ ...profile, password })`. */
    constructor (p: Profile, plaintext: Option<string>)
      ensures State() == NewDocument(p, plaintext)
    {
      id := None;
      profile := ApplySetters(p);
      password := if plaintext.Some? then Some(Plain(plaintext.value)) else None;
      passwordModified := plaintext.Some?;
      refreshToken := None;
      watchHistory := [];
    }

    /** `isPasswordCorrect(candidate)`: `bcrypt.compare` against the password path. */
    function IsPasswordCorrect(candidate: string): Result<bool, CompareError>
      reads this
    {
      PasswordCorrect(candidate, password)
    }

    /** The pre-save hook, which runs once validation has passed: hash the password only if it was modified. */
    method PreSave()
      requires Validates(State())
      modifies this
      ensures State() == old(State()).(password := Some(HashOnSave(old(password).value, old(passwordModified))))
    {
      if !passwordModified {
        return;
      }
      password := Some(Hash(password.value, SaltRounds));
    }

    /** `save()` into `users`, as `SaveDocument` describes it. */
    method Save(users: UserCollection) returns (r: Result<UserRecord, MongoError>)
      requires users.Valid() && DocumentValid(State()) && IdWithin(State(), users.records)
      modifies this, users
      ensures users.Valid() && DocumentValid(State()) && IdWithin(State(), users.records)
      ensures var o := SaveDocument(old(users.records), old(State()));
        r == o.result && users.records == o.records && State() == o.doc
      ensures r.Ok? && old(password).Some? && old(password).value.Plain?
        ==> IsPasswordCorrect(old(password).value.text) == Ok(true)
    {
      SaveKeepsInvariants(users.records, State());
      if !Validates(State()) {
        return Err(ValidationError);
      }
      ghost var before := State();
      PreSave();
      HookedRecordSchemaValid(before, if id.Some? then id.value else |users.records|);
      var rec := ToRecord(State(), if id.Some? then id.value else |users.records|);
      r := users.Write(rec);
      if r.Ok? {
        id := Some(rec.id);
        passwordModified := false;
      }
    }
  }
}

/** The two MongoDB collections the handlers use, as an in-memory store.

    A collection is a sequence of documents in natural order; a query returns the
    first match. `save()` on a user runs schema validation, then the pre-save
    hook, then the unique indexes on username and email, and only then writes;
    `save()` on a track validates and writes. Every document in the store passed
    validation when it was written, so validating a whole document is the same as
    Mongoose's validation of the modified paths. */
module Store {
  import opened Wrappers
  import opened UserModel
  import MusicModel
  import ListSet
  import ErrorHandler

  type MusicDoc = MusicModel.MusicDoc

  /** Why a save was refused: a Mongoose `ValidationError` with its messages, or a
      MongoDB E11000 duplicate-key error naming the unique field. */
  datatype SaveError = ValidationFailed(messages: seq<string>) | DuplicateKey(field: string)

  /** The error object a refused save throws, as the error handler sees it. */
  function Thrown(e: SaveError): ErrorHandler.JsError {
    match e
    case ValidationFailed(messages) =>
      ErrorHandler.JsError("ValidationError", "Validation failed", None, None, [], messages)
    case DuplicateKey(field) =>
      ErrorHandler.JsError("MongoServerError", "E11000 duplicate key error", None, Some(ErrorHandler.DuplicateKeyCode), [field], [])
  }

  /** A refused save that reaches the error handler is answered 400, with the
      validation messages joined by `, ` or the name of the duplicated field. */
  lemma {:induction false} RefusedSaveIs400(e: SaveError)
    requires e.ValidationFailed? ==> |e.messages| > 0 && e.messages[0] != ""
    ensures ErrorHandler.Classify(Thrown(e)).status == 400
    ensures e.ValidationFailed? ==> ErrorHandler.Classify(Thrown(e)).message == Text.Join(e.messages, ", ")
    ensures e.DuplicateKey? ==> ErrorHandler.Classify(Thrown(e)).message == e.field + " już istnieje w bazie danych"
  {
    if e.ValidationFailed? {
      ErrorHandler.ValidationErrorIs400(Thrown(e));
    }
  }

  // ---------------------------------------------------------------- queries and updates on sequences

  /** The first document satisfying `p`, as `findOne` returns it. */
  function First<T>(s: seq<T>, p: T -> bool): (r: Option<T>)
    ensures r.Some? <==> exists i :: 0 <= i < |s| && p(s[i])
    ensures r.Some? ==> r.value in s && p(r.value)
  {
    if |s| == 0 then None else if p(s[0]) then Some(s[0]) else First(s[1..], p)
  }

  /** Writes `d` over the documents with its id, or appends it when there is none. */
  function Put<T>(s: seq<T>, key: T -> ObjectId, d: T): seq<T> {
    if HasKey(s, key, key(d)) then Replace(s, key, d) else s + [d]
  }

  /** Some document has the id `k`. */
  predicate HasKey<T>(s: seq<T>, key: T -> ObjectId, k: ObjectId) {
    s != [] && (key(s[0]) == k || HasKey(s[1..], key, k))
  }

  /** Every document with the id of `d` replaced by `d`, in place. */
  function Replace<T>(s: seq<T>, key: T -> ObjectId, d: T): seq<T> {
    if s == [] then [] else [if key(s[0]) == key(d) then d else s[0]] + Replace(s[1..], key, d)
  }

  lemma {:induction false} HasKeyIff<T>(s: seq<T>, key: T -> ObjectId, k: ObjectId)
    ensures HasKey(s, key, k) <==> exists i :: 0 <= i < |s| && key(s[i]) == k
  {
    if s != [] {
      HasKeyIff(s[1..], key, k);
      if exists i :: 0 <= i < |s| && key(s[i]) == k {
        var i :| 0 <= i < |s| && key(s[i]) == k;
        if i > 0 {
          assert key(s[1..][i - 1]) == k;
        }
      }
    }
  }

  lemma {:induction false} ReplaceAt<T>(s: seq<T>, key: T -> ObjectId, d: T)
    ensures |Replace(s, key, d)| == |s|
    ensures forall i :: 0 <= i < |s| ==> Replace(s, key, d)[i] == if key(s[i]) == key(d) then d else s[i]
  {
    if s != [] {
      ReplaceAt(s[1..], key, d);
    }
  }

  /** A write over an existing id keeps the length and replaces in place; a
      write of a new id appends. */
  lemma PutShape<T>(s: seq<T>, key: T -> ObjectId, d: T)
    ensures (exists i :: 0 <= i < |s| && key(s[i]) == key(d)) ==>
              |Put(s, key, d)| == |s| &&
              forall i :: 0 <= i < |s| ==> Put(s, key, d)[i] == if key(s[i]) == key(d) then d else s[i]
    ensures !(exists i :: 0 <= i < |s| && key(s[i]) == key(d)) ==> Put(s, key, d) == s + [d]
  {
    HasKeyIff(s, key, key(d));
    ReplaceAt(s, key, d);
  }

  /** A write keeps every document with another id, adds `d`, and adds nothing else. */
  lemma PutMembers<T>(s: seq<T>, key: T -> ObjectId, d: T)
    ensures d in Put(s, key, d)
    ensures forall x :: x in Put(s, key, d) ==> x == d || (x in s && key(x) != key(d))
    ensures forall x :: x in s && key(x) != key(d) ==> x in Put(s, key, d)
  {
    HasKeyIff(s, key, key(d));
    var r := Put(s, key, d);
    if HasKey(s, key, key(d)) {
      ReplaceAt(s, key, d);
      var k :| 0 <= k < |s| && key(s[k]) == key(d);
      assert r[k] == d;
      forall x | x in s && key(x) != key(d) ensures x in r {
        var i :| 0 <= i < |s| && s[i] == x;
        assert r[i] == x;
      }
    }
  }

  /** `deleteMany(filter)`: the documents that do not match, in order. */
  function Without<T(!new)>(s: seq<T>, p: T -> bool): (r: seq<T>)
    ensures forall x :: x in r <==> x in s && !p(x)
    ensures |r| <= |s|
  {
    if |s| == 0 then [] else (if p(s[0]) then [] else [s[0]]) + Without(s[1..], p)
  }

  /** `countDocuments(filter)`. */
  function Count<T>(s: seq<T>, p: T -> bool): (n: nat)
    ensures n <= |s|
    ensures n == 0 <==> forall i :: 0 <= i < |s| ==> !p(s[i])
  {
    if |s| == 0 then 0 else (if p(s[0]) then 1 else 0) + Count(s[1..], p)
  }

  function UserId(d: UserDoc): ObjectId { d.id }
  function MusicId(d: MusicDoc): ObjectId { d.id }

  /** `User.findById(id)`. */
  function FindUserById(users: seq<UserDoc>, id: ObjectId): (r: Option<UserDoc>)
    ensures r.Some? <==> exists i :: 0 <= i < |users| && users[i].id == id
    ensures r.Some? ==> r.value in users && r.value.id == id
  {
    First(users, (d: UserDoc) => d.id == id)
  }

  /** `Music.findById(id)`. */
  function FindMusicById(music: seq<MusicDoc>, id: ObjectId): (r: Option<MusicDoc>)
    ensures r.Some? <==> exists i :: 0 <= i < |music| && music[i].id == id
    ensures r.Some? ==> r.value in music && r.value.id == id
  {
    First(music, (d: MusicDoc) => d.id == id)
  }

  /** The value a query filter on `email` is cast to: the path's `trim` and
      `lowercase` setters run on it. */
  function EmailKey(email: string): string {
    Text.Lower(Text.Trim(email))
  }

  /** `User.findOne({ email })`. */
  function FindUserByEmail(users: seq<UserDoc>, email: string): (r: Option<UserDoc>)
    ensures r.Some? <==> exists i :: 0 <= i < |users| && users[i].email == EmailKey(email)
    ensures r.Some? ==> r.value in users && r.value.email == EmailKey(email)
  {
    First(users, (d: UserDoc) => d.email == EmailKey(email))
  }

  /** `User.findOne({ $or: [{ email }, { username }] })`. */
  function FindUserByEmailOrUsername(users: seq<UserDoc>, email: string, username: string): (r: Option<UserDoc>)
    ensures r.Some? <==> exists i :: 0 <= i < |users| && (users[i].email == EmailKey(email) || users[i].username == Text.Trim(username))
    ensures r.Some? ==> r.value in users && (r.value.email == EmailKey(email) || r.value.username == Text.Trim(username))
  {
    First(users, (d: UserDoc) => d.email == EmailKey(email) || d.username == Text.Trim(username))
  }

  // ---------------------------------------------------------------- invariants

  /** The unique indexes (`_id`, `username`, `email`) hold, every user passed
      validation and stores a bcrypt hash, and every id was handed out. */
  ghost predicate UsersConsistent(users: seq<UserDoc>, nextId: ObjectId) {
    && (forall x, y :: x in users && y in users && x != y ==>
          x.id != y.id && x.username != y.username && x.email != y.email)
    && (forall x :: x in users ==> x.id < nextId && SchemaValid(x) && IsPasswordHash(x.password))
  }

  ghost predicate MusicConsistent(music: seq<MusicDoc>, nextId: ObjectId) {
    && (forall x, y :: x in music && y in music && x != y ==> x.id != y.id)
    && (forall x :: x in music ==> x.id < nextId && MusicModel.SchemaValid(x))
  }

  // ---------------------------------------------------------------- saving

  /** The document the pre-save hook leaves: the password hashed only when it was modified. */
  function HookApplied(d: UserDoc, passwordModified: bool): (h: UserDoc)
    ensures passwordModified ==> h == d.(password := Hashed(d.password))
    ensures !passwordModified ==> h == d
  {
    if passwordModified then d.(password := Hashed(d.password)) else d
  }

  /** The unique index another document already holds the value of, if any;
      `username` is declared, and so checked, first. */
  function Clash(users: seq<UserDoc>, d: UserDoc): (field: Option<string>)
    ensures field.None? <==> forall x :: x in users && x.id != d.id ==> x.username != d.username && x.email != d.email
  {
    if exists x :: x in users && x.id != d.id && x.username == d.username then Some("username")
    else if exists x :: x in users && x.id != d.id && x.email == d.email then Some("email")
    else None
  }

  datatype UserSaveResult = UserSaveResult(error: Option<SaveError>, users: seq<UserDoc>)

  /** `user.save()`: validation, then the hook, then the unique indexes, then the write. */
  function SaveUserOutcome(users: seq<UserDoc>, d: UserDoc, passwordModified: bool): (r: UserSaveResult)
    ensures r.error.None? <==> SchemaValid(d) && Clash(users, HookApplied(d, passwordModified)).None?
    ensures r.error.Some? ==> r.users == users
    ensures r.error.None? ==> r.users == Put(users, UserId, HookApplied(d, passwordModified))
  {
    if ValidationErrors(d) != [] then UserSaveResult(Some(ValidationFailed(ValidationErrors(d))), users)
    else
      var h := HookApplied(d, passwordModified);
      match Clash(users, h)
      case Some(field) => UserSaveResult(Some(DuplicateKey(field)), users)
      case None => UserSaveResult(None, Put(users, UserId, h))
  }

  /** Saving keeps the collection consistent: the unique indexes, validity, and a
      bcrypt hash in every stored password, whether the password was just
      assigned or loaded as a hash. */
  lemma SaveKeepsUsersConsistent(users: seq<UserDoc>, nextId: ObjectId, d: UserDoc, passwordModified: bool)
    requires UsersConsistent(users, nextId)
    requires d.id < nextId
    requires if passwordModified then d.password.Plain? else IsPasswordHash(d.password)
    ensures UsersConsistent(SaveUserOutcome(users, d, passwordModified).users, nextId)
  {
    var r := SaveUserOutcome(users, d, passwordModified);
    if r.error.None? {
      var h := HookApplied(d, passwordModified);
      PutMembers(users, UserId, h);
      assert IsPasswordHash(h.password);
      assert SchemaValid(h) by {
        assert ValidationErrors(h) == ValidationErrors(d) by {
          assert CredentialLength(h.password) >= PasswordMinLength;
        }
      }
      forall x, y | x in r.users && y in r.users && x != y
        ensures x.id != y.id && x.username != y.username && x.email != y.email
      {
        if x == h {
          assert y in users && y.id != h.id;
        } else if y == h {
          assert x in users && x.id != h.id;
        }
      }
    }
  }

  /** Writing back a document whose id, username and email are those of a stored
      one never hits a unique index. */
  lemma ResaveHasNoClash(users: seq<UserDoc>, nextId: ObjectId, stored: UserDoc, d: UserDoc)
    requires UsersConsistent(users, nextId) && stored in users
    requires d.id == stored.id && d.username == stored.username && d.email == stored.email
    ensures Clash(users, d).None?
  {
  }

  /** A new id: the document is appended. */
  lemma PutFresh<T(!new)>(s: seq<T>, key: T -> ObjectId, d: T)
    requires forall i :: 0 <= i < |s| ==> key(s[i]) != key(d)
    ensures Put(s, key, d) == s + [d]
  {
    HasKeyIff(s, key, key(d));
  }

  /** Writing over the last document when no other has its id. */
  lemma PutOverLast<T(!new)>(s: seq<T>, key: T -> ObjectId, d: T, e: T)
    requires forall i :: 0 <= i < |s| ==> key(s[i]) != key(d)
    requires key(e) == key(d)
    ensures Put(s + [d], key, e) == s + [e]
  {
    var t := s + [d];
    assert key(t[|s|]) == key(e);
    PutShape(t, key, e);
    var r := Put(t, key, e);
    assert |r| == |t|;
    assert forall i :: 0 <= i < |t| ==> r[i] == if key(t[i]) == key(e) then e else t[i];
  }

  /** Writing twice over the same id is writing the second document once. */
  lemma PutTwice<T(!new)>(s: seq<T>, key: T -> ObjectId, d: T, e: T)
    requires key(d) == key(e)
    ensures Put(Put(s, key, d), key, e) == Put(s, key, e)
  {
    var once := Put(s, key, d);
    PutShape(s, key, d);
    PutShape(once, key, e);
    PutShape(s, key, e);
    if exists i :: 0 <= i < |s| && key(s[i]) == key(d) {
      assert exists i :: 0 <= i < |once| && key(once[i]) == key(e) by {
        var i :| 0 <= i < |s| && key(s[i]) == key(d);
        assert key(once[i]) == key(e);
      }
    } else {
      assert once[|s|] == d;
    }
  }

  /** Writing back a stored document, when no other has its id, changes nothing. */
  lemma PutStored<T(!new)>(s: seq<T>, key: T -> ObjectId, d: T)
    requires d in s
    requires forall x :: x in s && key(x) == key(d) ==> x == d
    ensures Put(s, key, d) == s
  {
    var r := Put(s, key, d);
    PutShape(s, key, d);
    assert exists i :: 0 <= i < |s| && key(s[i]) == key(d) by {
      var k :| 0 <= k < |s| && s[k] == d;
      assert key(s[k]) == key(d);
    }
    assert |r| == |s|;
    forall i | 0 <= i < |s| ensures r[i] == s[i] {
      assert s[i] in s;
    }
  }

  /** Right after a track is written, looking up its id finds it. */
  lemma FindMusicAfterPut(music: seq<MusicDoc>, d: MusicDoc)
    ensures FindMusicById(Put(music, MusicId, d), d.id) == Some(d)
  {
    PutMembers(music, MusicId, d);
    FirstOfUnique(Put(music, MusicId, d), (x: MusicDoc) => x.id == d.id, d);
  }

  /** When every document satisfying `p` is `v` and one does, the query returns `v`. */
  lemma FirstOfUnique<T>(s: seq<T>, p: T -> bool, v: T)
    requires v in s && p(v)
    requires forall x :: x in s && p(x) ==> x == v
    ensures First(s, p) == Some(v)
  {
    var i :| 0 <= i < |s| && s[i] == v;
    assert p(s[i]);
  }

  /** After a stored user is written back with the same id and email, the
      email query finds the new document. */
  lemma FindByEmailAfterResave(users: seq<UserDoc>, nextId: ObjectId, u: UserDoc, v: UserDoc, email: string)
    requires UsersConsistent(users, nextId) && u in users && u.email == EmailKey(email)
    requires v.id == u.id && v.email == u.email
    ensures FindUserByEmail(Put(users, UserId, v), email) == Some(v)
  {
    var after := Put(users, UserId, v);
    PutMembers(users, UserId, v);
    forall x | x in after && x.email == EmailKey(email) ensures x == v {
    }
    FirstOfUnique(after, (d: UserDoc) => d.email == EmailKey(email), v);
  }

  /** The store after a track is saved: validated, then written. */
  function SaveMusicOutcome(music: seq<MusicDoc>, d: MusicDoc): (r: (Option<SaveError>, seq<MusicDoc>))
    ensures r.0.None? <==> MusicModel.SchemaValid(d)
    ensures r.0.Some? ==> r.1 == music
    ensures r.0.None? ==> r.1 == Put(music, MusicId, d)
  {
    var errors := MusicModel.ValidationErrors(d);
    if errors != [] then (Some(ValidationFailed(errors)), music) else (None, Put(music, MusicId, d))
  }

  lemma SaveKeepsMusicConsistent(music: seq<MusicDoc>, nextId: ObjectId, d: MusicDoc)
    requires MusicConsistent(music, nextId) && d.id < nextId
    ensures MusicConsistent(SaveMusicOutcome(music, d).1, nextId)
  {
    PutMembers(music, MusicId, d);
  }

  /** `$addToSet` on `recentlyPlayed` of the user with the id; no validation runs
      and a missing user changes nothing. */
  function AddRecentlyPlayed(users: seq<UserDoc>, user: ObjectId, track: ObjectId): (r: seq<UserDoc>)
    ensures |r| == |users|
    ensures forall i :: 0 <= i < |users| ==>
              r[i] == if users[i].id == user then users[i].(recentlyPlayed := ListSet.Add(users[i].recentlyPlayed, track)) else users[i]
  {
    seq(|users|, i requires 0 <= i < |users| =>
      if users[i].id == user then users[i].(recentlyPlayed := ListSet.Add(users[i].recentlyPlayed, track)) else users[i])
  }

  lemma AddRecentlyPlayedKeepsConsistent(users: seq<UserDoc>, nextId: ObjectId, user: ObjectId, track: ObjectId)
    requires UsersConsistent(users, nextId)
    ensures UsersConsistent(AddRecentlyPlayed(users, user, track), nextId)
  {
    AddRecentlyPlayedKeepsValid(users, nextId, user, track);
    AddRecentlyPlayedKeepsUnique(users, nextId, user, track);
  }

  lemma AddRecentlyPlayedKeepsValid(users: seq<UserDoc>, nextId: ObjectId, user: ObjectId, track: ObjectId)
    requires UsersConsistent(users, nextId)
    ensures forall x :: x in AddRecentlyPlayed(users, user, track) ==>
              x.id < nextId && SchemaValid(x) && IsPasswordHash(x.password)
  {
    var r := AddRecentlyPlayed(users, user, track);
    forall x | x in r ensures x.id < nextId && SchemaValid(x) && IsPasswordHash(x.password) {
      var i :| 0 <= i < |r| && r[i] == x;
      var u := users[i];
      assert u in users;
      assert SchemaValid(u);
      assert x == u.(recentlyPlayed := x.recentlyPlayed);
      RecentlyPlayedNotValidated(u, x.recentlyPlayed);
    }
  }

  lemma AddRecentlyPlayedKeepsUnique(users: seq<UserDoc>, nextId: ObjectId, user: ObjectId, track: ObjectId)
    requires UsersConsistent(users, nextId)
    ensures var r := AddRecentlyPlayed(users, user, track);
            forall x, y :: x in r && y in r && x != y ==> x.id != y.id && x.username != y.username && x.email != y.email
  {
    RecentlyPlayedKeepsKeys(users, user, track);
  }

  lemma RecentlyPlayedKeepsKeys(users: seq<UserDoc>, user: ObjectId, track: ObjectId)
    requires forall x, y :: x in users && y in users && x != y ==>
               x.id != y.id && x.username != y.username && x.email != y.email
    ensures var r := AddRecentlyPlayed(users, user, track);
            forall x, y :: x in r && y in r && x != y ==> x.id != y.id && x.username != y.username && x.email != y.email
  {
    var r := AddRecentlyPlayed(users, user, track);
    forall x, y | x in r && y in r && x != y
      ensures x.id != y.id && x.username != y.username && x.email != y.email
    {
      var i :| 0 <= i < |r| && r[i] == x;
      var j :| 0 <= j < |r| && r[j] == y;
      var u, v := users[i], users[j];
      PlayedKeepsKeys(u, user, track, x);
      PlayedKeepsKeys(v, user, track, y);
      assert u != v;
      assert u in users && v in users;
    }
  }

  lemma PlayedKeepsKeys(u: UserDoc, user: ObjectId, track: ObjectId, x: UserDoc)
    requires x == if u.id == user then u.(recentlyPlayed := ListSet.Add(u.recentlyPlayed, track)) else u
    ensures x.id == u.id && x.username == u.username && x.email == u.email
  {
  }

  /** No validator looks at `recentlyPlayed`. */
  lemma RecentlyPlayedNotValidated(d: UserDoc, played: seq<ObjectId>)
    ensures ValidationErrors(d.(recentlyPlayed := played)) == ValidationErrors(d)
  {
  }

  // ---------------------------------------------------------------- the store

  class Database {
    var users: seq<UserDoc>
    var music: seq<MusicDoc>
    /** The next ObjectId to hand out. */
    var nextId: ObjectId

    ghost predicate Valid()
      reads this
    {
      UsersConsistent(users, nextId) && MusicConsistent(music, nextId)
    }

    constructor Empty()
      ensures Valid() && users == [] && music == []
    {
      users, music, nextId := [], [], 0;
    }

    /** A new ObjectId, distinct from every id in the store. */
    method FreshId() returns (id: ObjectId)
      requires Valid()
      modifies this
      ensures Valid() && id == old(nextId) && nextId == id + 1
      ensures users == old(users) && music == old(music)
      ensures forall x :: x in users ==> x.id != id
      ensures forall x :: x in music ==> x.id != id
    {
      id := nextId;
      nextId := nextId + 1;
    }

    /** `user.save()` of the in-memory document `u`. */
    method SaveUser(u: User) returns (err: Option<SaveError>)
      requires Valid() && u.Valid() && u.id < nextId
      modifies this, u
      ensures Valid() && u.Valid()
      ensures var r := SaveUserOutcome(old(users), old(u.Doc()), old(u.passwordModified));
              err == r.error && users == r.users
      ensures music == old(music) && nextId == old(nextId)
      ensures SchemaValid(old(u.Doc())) ==> u.Doc() == HookApplied(old(u.Doc()), old(u.passwordModified)) && !u.passwordModified
      ensures !SchemaValid(old(u.Doc())) ==> u.Doc() == old(u.Doc()) && u.passwordModified == old(u.passwordModified)
    {
      var errors := ValidationErrors(u.Doc());
      if errors != [] {
        return Some(ValidationFailed(errors));
      }
      SaveKeepsUsersConsistent(users, nextId, u.Doc(), u.passwordModified);
      u.PreSave();
      var clash := Clash(users, u.Doc());
      if clash.Some? {
        return Some(DuplicateKey(clash.value));
      }
      users := Put(users, UserId, u.Doc());
      err := None;
    }

    /** `user.save()` of a stored user whose in-memory copy kept its id,
        username and email, passes validation and holds no new password: no
        check can refuse it, and the document is written over the stored one. */
    method SaveExisting(u: User, stored: UserDoc)
      requires Valid() && u.Valid() && !u.passwordModified && stored in users
      requires u.id == stored.id && u.username == stored.username && u.email == stored.email
      requires SchemaValid(u.Doc())
      modifies this
      ensures Valid()
      ensures users == Put(old(users), UserId, u.Doc())
      ensures music == old(music) && nextId == old(nextId)
    {
      ResaveHasNoClash(users, nextId, stored, u.Doc());
      SaveKeepsUsersConsistent(users, nextId, u.Doc(), false);
      users := Put(users, UserId, u.Doc());
    }

    /** `music.save()` of the in-memory document `m`. */
    method SaveMusic(m: MusicModel.Music) returns (err: Option<SaveError>)
      requires Valid() && m.id < nextId
      modifies this
      ensures Valid()
      ensures (err, music) == SaveMusicOutcome(old(music), m.Doc())
      ensures users == old(users) && nextId == old(nextId)
    {
      SaveKeepsMusicConsistent(music, nextId, m.Doc());
      var errors := MusicModel.ValidationErrors(m.Doc());
      if errors != [] {
        return Some(ValidationFailed(errors));
      }
      music := Put(music, MusicId, m.Doc());
      err := None;
    }

    /** `Music.findByIdAndDelete(id)`. */
    method DeleteMusicById(id: ObjectId)
      requires Valid()
      modifies this
      ensures Valid()
      ensures music == Without(old(music), (d: MusicDoc) => d.id == id)
      ensures users == old(users) && nextId == old(nextId)
    {
      music := Without(music, (d: MusicDoc) => d.id == id);
    }

    /** `Music.deleteMany({ uploadedBy })`. */
    method DeleteMusicUploadedBy(owner: ObjectId)
      requires Valid()
      modifies this
      ensures Valid()
      ensures music == Without(old(music), (d: MusicDoc) => d.uploadedBy == owner)
      ensures users == old(users) && nextId == old(nextId)
    {
      music := Without(music, (d: MusicDoc) => d.uploadedBy == owner);
    }

    /** `User.findByIdAndDelete(id)`. */
    method DeleteUserById(id: ObjectId)
      requires Valid()
      modifies this
      ensures Valid()
      ensures users == Without(old(users), (d: UserDoc) => d.id == id)
      ensures music == old(music) && nextId == old(nextId)
    {
      users := Without(users, (d: UserDoc) => d.id == id);
    }

    /** `User.findByIdAndUpdate(user, { $addToSet: { 'preferences.recentlyPlayed': track } })`. */
    method AddToRecentlyPlayed(user: ObjectId, track: ObjectId)
      requires Valid()
      modifies this
      ensures Valid()
      ensures users == AddRecentlyPlayed(old(users), user, track)
      ensures music == old(music) && nextId == old(nextId)
    {
      AddRecentlyPlayedKeepsConsistent(users, nextId, user, track);
      users := AddRecentlyPlayed(users, user, track);
    }
  }
}

/** The profile handlers of backend/controllers/userController.js.

    Every handler acts for the user `protect` put on `req.user` (the id
    `requester`). Those that write load the user, assign fields of the
    in-memory document and save it, and are proved against a function that
    gives the reply and the collections after it. Files on disk (the avatar,
    the audio and cover files of a deleted account) are not part of this
    model: a removed file is not observable through the store. `populate` is
    modelled where it decides what is sent (the recently played tracks, in
    `getProfile` and `getRecentlyPlayed`); the uploader's name it adds to a
    track and the playlists, whose collection the store does not hold, are
    not. */
module UserController {
  import opened Wrappers
  import opened Text
  import opened UserModel
  import opened Store
  import MusicController
  import ErrorHandler
  import AuthController

  const UserNotFound := "Użytkownik nie znaleziony"
  const ProfileSaved := "Profil zaktualizowany pomyślnie"
  const ImageRequired := "Plik obrazu jest wymagany"
  const AvatarUploaded := "Avatar został przesłany pomyślnie"
  const NoAvatar := "Nie masz ustawionego awatara"
  const AvatarDeleted := "Avatar został usunięty"
  const PasswordsRequired := "Aktualne hasło i nowe hasło są wymagane"
  const NewPasswordTooShort := "Nowe hasło musi mieć minimum 6 znaków"
  const WrongCurrentPassword := "Aktualne hasło jest nieprawidłowe"
  const PasswordChanged := "Hasło zostało zmienione pomyślnie"
  const PasswordRequiredToDelete := "Hasło jest wymagane do usunięcia konta"
  const WrongPassword := "Nieprawidłowe hasło"
  const AccountDeleted := "Konto zostało usunięte pomyślnie"

  /** How many recently played ids `getRecentlyPlayed` sends. */
  const RecentlyPlayedCap: nat := 20

  // ---------------------------------------------------------------- saving

  /** `await user.save()` inside a handler: the reply `success` once the user is
      written; a refused save reaches the error handler. */
  function UserSaved<T>(users: seq<UserDoc>, d: UserDoc, passwordModified: bool, success: Reply<T>): (r: (Reply<T>, seq<UserDoc>))
    ensures SaveUserOutcome(users, d, passwordModified).error.None? ==> r == (success, Put(users, UserId, HookApplied(d, passwordModified)))
    ensures SaveUserOutcome(users, d, passwordModified).error.Some? ==> r.0.Failure? && r.1 == users
  {
    var saved := SaveUserOutcome(users, d, passwordModified);
    match saved.error
    case None => (success, saved.users)
    case Some(e) => (ErrorHandler.Forward(Thrown(e)), users)
  }

  /** A stored user written back with its id, username and email, valid, and
      with either its stored hash or a new plaintext, is always written. */
  lemma ResaveSucceeds(users: seq<UserDoc>, nextId: ObjectId, stored: UserDoc, d: UserDoc, passwordModified: bool)
    requires UsersConsistent(users, nextId) && stored in users
    requires d.id == stored.id && d.username == stored.username && d.email == stored.email
    requires SchemaValid(d)
    ensures SaveUserOutcome(users, d, passwordModified).error.None?
  {
    ResaveHasNoClash(users, nextId, stored, HookApplied(d, passwordModified));
  }

  /** The save of a handler's in-memory user. */
  method SaveUserReply<T>(db: Database, user: User, success: Reply<T>) returns (reply: Reply<T>)
    requires db.Valid() && user.Valid() && user.id < db.nextId
    modifies db, user
    ensures db.Valid() && db.music == old(db.music) && db.nextId == old(db.nextId)
    ensures (reply, db.users) == UserSaved(old(db.users), old(user.Doc()), old(user.passwordModified), success)
  {
    var err := db.SaveUser(user);
    if err.None? {
      reply := success;
    } else {
      reply := ErrorHandler.Forward(Thrown(err.value));
    }
  }

  /** The user `findById` loads is the stored one with that id. */
  lemma FindStoredUser(users: seq<UserDoc>, nextId: ObjectId, d: UserDoc)
    requires UsersConsistent(users, nextId) && d in users
    ensures FindUserById(users, d.id) == Some(d)
  {
    FirstOfUnique(users, (x: UserDoc) => x.id == d.id, d);
  }

  /** Right after a user is written, looking up its id finds it. */
  lemma FindUserAfterPut(users: seq<UserDoc>, d: UserDoc)
    ensures FindUserById(Put(users, UserId, d), d.id) == Some(d)
  {
    PutMembers(users, UserId, d);
    FirstOfUnique(Put(users, UserId, d), (x: UserDoc) => x.id == d.id, d);
  }

  // ---------------------------------------------------------------- reading

  datatype ProfileStats = ProfileStats(musicCount: nat, likedCount: nat)

  /** A played track as `populate('preferences.recentlyPlayed', 'title artist coverImage')`
      sends it: its id and the three selected fields. */
  datatype PlayedTrack = PlayedTrack(id: ObjectId, title: string, artist: string, coverImage: Option<string>)

  /** The selected fields of each populated track, in order. */
  function Selected(ts: seq<MusicDoc>): seq<PlayedTrack> {
    seq(|ts|, i requires 0 <= i < |ts| => PlayedTrack(ts[i].id, ts[i].title, ts[i].artist, ts[i].coverImage))
  }

  /** The profile sent: the serialized user, whose `preferences.recentlyPlayed`
      holds the populated tracks `recentlyPlayed` in place of the stored ids,
      and the statistics. */
  datatype ProfileView = ProfileView(user: PublicUser, recentlyPlayed: seq<PlayedTrack>, stats: ProfileStats)

  /** `find({ likes: requester })` in store order. */
  function LikedTracks(music: seq<MusicDoc>, requester: ObjectId): (r: seq<MusicDoc>)
    ensures forall t :: t in r <==> t in music && requester in t.likes
  {
    Without(music, (d: MusicDoc) => requester !in d.likes)
  }

  /** `getProfile`: the serialized user, its played tracks populated, with the
      number of tracks it uploaded and the number it likes. The reply carries
      no message. */
  function GetProfile(users: seq<UserDoc>, music: seq<MusicDoc>, requester: ObjectId): (r: Reply<ProfileView>)
    ensures r.Failure? <==> FindUserById(users, requester).None?
    ensures r.Failure? ==> r == Failure(404, UserNotFound)
    ensures r.Success? ==> r.data.user == FindUserById(users, requester).value.ToJson()
    ensures r.Success? ==> r.data.recentlyPlayed == Selected(Populated(music, FindUserById(users, requester).value.recentlyPlayed))
    ensures r.Success? ==> r.data.stats.musicCount == |MusicController.OwnTracks(music, requester)|
                           && r.data.stats.likedCount == |LikedTracks(music, requester)|
  {
    match FindUserById(users, requester)
    case None => Failure(404, UserNotFound)
    case Some(u) =>
      MusicController.CountIsFilteredLength(music, (d: MusicDoc) => d.uploadedBy == u.id, (d: MusicDoc) => d.uploadedBy != requester);
      MusicController.CountIsFilteredLength(music, (d: MusicDoc) => u.id in d.likes, (d: MusicDoc) => requester !in d.likes);
      Success(200, "", ProfileView(u.ToJson(), Selected(Populated(music, u.recentlyPlayed)), ProfileStats(Count(music, (d: MusicDoc) => d.uploadedBy == u.id),
                                                            Count(music, (d: MusicDoc) => u.id in d.likes))))
  }

  /** Each played track in the profile is a stored track, listed by the user,
      sent with that track's title, artist and cover. */
  lemma ProfilePlaysStored(users: seq<UserDoc>, music: seq<MusicDoc>, nextId: ObjectId, requester: ObjectId)
    requires MusicConsistent(music, nextId)
    ensures var r := GetProfile(users, music, requester);
            r.Success? ==> forall i :: 0 <= i < |r.data.recentlyPlayed| ==>
                             var p := r.data.recentlyPlayed[i];
                             && p.id in FindUserById(users, requester).value.recentlyPlayed
                             && FindMusicById(music, p.id).Some?
                             && var t := FindMusicById(music, p.id).value;
                                p == PlayedTrack(t.id, t.title, t.artist, t.coverImage)
  {
    var r := GetProfile(users, music, requester);
    if r.Success? {
      var shown := Populated(music, FindUserById(users, requester).value.recentlyPlayed);
      forall i | 0 <= i < |r.data.recentlyPlayed|
        ensures FindMusicById(music, shown[i].id) == Some(shown[i])
      {
        assert shown[i] in shown;
        FirstOfUnique(music, (d: MusicDoc) => d.id == shown[i].id, shown[i]);
      }
    }
  }

  /** A deleted track never appears among the profile's played tracks. */
  lemma ProfileSkipsDeleted(users: seq<UserDoc>, music: seq<MusicDoc>, requester: ObjectId, gone: ObjectId)
    requires FindMusicById(music, gone).None?
    ensures var r := GetProfile(users, music, requester);
            r.Success? ==> forall i :: 0 <= i < |r.data.recentlyPlayed| ==> r.data.recentlyPlayed[i].id != gone
  {
    var r := GetProfile(users, music, requester);
    if r.Success? {
      var shown := Populated(music, FindUserById(users, requester).value.recentlyPlayed);
      forall i | 0 <= i < |r.data.recentlyPlayed| ensures shown[i].id != gone {
        assert shown[i] in shown;
      }
    }
  }

  /** `getRecentlyPlayed` sends the first twenty of the tracks the profile
      lists, so both handlers agree on the order. */
  lemma ProfileAgreesWithRecentlyPlayed(users: seq<UserDoc>, music: seq<MusicDoc>, requester: ObjectId)
    ensures var p := GetProfile(users, music, requester);
            var q := GetRecentlyPlayed(users, music, requester);
            && (p.Success? <==> q.Success?)
            && (q.Success? ==> StartsWith(p.data.recentlyPlayed, Selected(q.data)))
  {
    var q := GetRecentlyPlayed(users, music, requester);
    if q.Success? {
      var p := GetProfile(users, music, requester);
      var shown := Populated(music, FindUserById(users, requester).value.recentlyPlayed);
      assert q.data == shown[..|q.data|];
      assert p.data.recentlyPlayed[..|q.data|] == Selected(q.data);
    }
  }

  /** `getLikedMusic`: one page of the tracks the requester likes, newest
      first; a refused query reaches the error handler. None when a query
      value is NaN. */
  function GetLikedMusic(music: seq<MusicDoc>, requester: ObjectId, page: Option<string>, limit: Option<string>): (r: Option<Reply<MusicController.Listing>>)
    ensures var listed := MusicController.PageListing(LikedTracks(music, requester), |LikedTracks(music, requester)|, page, limit);
            && (r.None? <==> listed.NotANumber?)
            && (listed.Listed? ==> r == Some(Success(200, "", listed.listing)))
            && (listed.NegativeSkip? ==> r == Some(ErrorHandler.Forward(MusicController.NegativeSkipError(listed.skip))))
  {
    MusicController.CountIsFilteredLength(music, (d: MusicDoc) => requester in d.likes, (d: MusicDoc) => requester !in d.likes);
    MusicController.ListingReply(MusicController.PageListing(LikedTracks(music, requester), Count(music, (d: MusicDoc) => requester in d.likes), page, limit), true)
  }

  /** A page below one with a positive limit: `getLikedMusic` answers 500. */
  lemma LikedNonPositivePage(music: seq<MusicDoc>, requester: ObjectId, pageText: Option<string>, limitText: Option<string>, page: int, limit: int)
    requires MusicController.QueryInt(pageText, 1) == Some(page) && MusicController.QueryInt(limitText, 20) == Some(limit)
    requires page <= 0 && limit >= 1
    ensures var r := GetLikedMusic(music, requester, pageText, limitText);
            r.Some? && r.value.Failure? && r.value.status == 500
  {
    var liked := LikedTracks(music, requester);
    MusicController.NonPositivePageRefused(liked, |liked|, pageText, limitText, page, limit);
    MusicController.NegativeSkipIs500(MusicController.Skip(page, limit));
  }

  /** A track the requester has just liked is among the tracks it likes. */
  lemma LikedTrackListed(music: seq<MusicDoc>, nextId: ObjectId, requester: ObjectId, id: ObjectId)
    requires MusicConsistent(music, nextId)
    requires MusicController.LikeMusicOutcome(music, requester, id).0.Success?
    ensures exists t :: t in LikedTracks(MusicController.LikeMusicOutcome(music, requester, id).1, requester) && t.id == id
  {
    var m := FindMusicById(music, id).value;
    var liked := m.(likes := m.likes + [requester]);
    FindMusicAfterPut(music, liked);
    assert liked in Put(music, MusicId, liked);
  }

  /** `populate` of a list of track ids: the stored track of each id, in the
      list's order; an id whose track is gone is dropped. */
  function Populated(music: seq<MusicDoc>, ids: seq<ObjectId>): (r: seq<MusicDoc>)
    ensures |r| <= |ids|
    ensures forall t :: t in r ==> t in music && t.id in ids
  {
    if ids == [] then []
    else
      var rest := Populated(music, ids[1..]);
      match FindMusicById(music, ids[0])
      case None => rest
      case Some(t) => [t] + rest
  }

  lemma {:induction false} PopulatedConcat(music: seq<MusicDoc>, a: seq<ObjectId>, b: seq<ObjectId>)
    ensures Populated(music, a + b) == Populated(music, a) + Populated(music, b)
  {
    if a == [] {
      assert a + b == b;
    } else {
      assert (a + b)[1..] == a[1..] + b;
      PopulatedConcat(music, a[1..], b);
    }
  }

  /** While every listed track is stored, `populate` gives one track per id,
      in order. */
  lemma {:induction false} PopulatedAllStored(music: seq<MusicDoc>, ids: seq<ObjectId>)
    requires forall i :: 0 <= i < |ids| ==> FindMusicById(music, ids[i]).Some?
    ensures |Populated(music, ids)| == |ids|
    ensures forall i :: 0 <= i < |ids| ==> Populated(music, ids)[i] == FindMusicById(music, ids[i]).value
  {
    if ids != [] {
      assert forall i :: 0 <= i < |ids[1..]| ==> ids[1..][i] == ids[i + 1];
      PopulatedAllStored(music, ids[1..]);
    }
  }

  /** An id whose track is gone is as if it had never been listed: the tracks
      after it move up. */
  lemma {:induction false} GoneIdSkipped(music: seq<MusicDoc>, ids: seq<ObjectId>, gone: ObjectId)
    requires FindMusicById(music, gone).None?
    ensures Populated(music, ids) == Populated(music, ListSet.RemoveAll(ids, gone))
  {
    if ids != [] {
      GoneIdSkipped(music, ids[1..], gone);
      if ids[0] != gone {
        var kept := ListSet.RemoveAll(ids, gone);
        assert kept == [ids[0]] + ListSet.RemoveAll(ids[1..], gone);
        assert kept[1..] == ListSet.RemoveAll(ids[1..], gone);
      }
    }
  }

  /** `getRecentlyPlayed`: the stored ids are populated, which drops those
      whose track is gone, and the first twenty tracks are sent, in stored
      order. The reply carries no message. */
  function GetRecentlyPlayed(users: seq<UserDoc>, music: seq<MusicDoc>, requester: ObjectId): (r: Reply<seq<MusicDoc>>)
    ensures r.Failure? <==> FindUserById(users, requester).None?
    ensures r.Failure? ==> r == Failure(404, UserNotFound)
    ensures r.Success? ==> var shown := Populated(music, FindUserById(users, requester).value.recentlyPlayed);
                           |r.data| <= RecentlyPlayedCap && StartsWith(shown, r.data)
                           && (|shown| <= RecentlyPlayedCap ==> r.data == shown)
                           && (|shown| > RecentlyPlayedCap ==> |r.data| == RecentlyPlayedCap)
  {
    match FindUserById(users, requester)
    case None => Failure(404, UserNotFound)
    case Some(u) =>
      var shown := Populated(music, u.recentlyPlayed);
      Success(200, "", shown[..if |shown| <= RecentlyPlayedCap then |shown| else RecentlyPlayedCap])
  }

  /** A play puts its track after the tracks already shown, or changes nothing. */
  lemma PlayExtendsShown(music: seq<MusicDoc>, played: seq<ObjectId>, track: ObjectId)
    ensures StartsWith(Populated(music, ListSet.Add(played, track)), Populated(music, played))
  {
    if track !in played {
      PopulatedConcat(music, played, [track]);
    }
  }

  /** Once twenty tracks are shown, playing another leaves the reply as it was:
      `$addToSet` appends at the end and the handler sends the first twenty,
      so the newest plays are not shown. */
  lemma RecentlyPlayedFrozenAtCap(users: seq<UserDoc>, music: seq<MusicDoc>, nextId: ObjectId, d: UserDoc, track: ObjectId)
    requires UsersConsistent(users, nextId) && d in users
    requires |Populated(music, d.recentlyPlayed)| >= RecentlyPlayedCap
    ensures GetRecentlyPlayed(AddRecentlyPlayed(users, d.id, track), music, d.id) == GetRecentlyPlayed(users, music, d.id)
  {
    FindStoredUser(users, nextId, d);
    PlayRecorded(users, nextId, d, track);
    FoundFrozenAtCap(users, AddRecentlyPlayed(users, d.id, track), music, d, track);
  }

  lemma FoundFrozenAtCap(users: seq<UserDoc>, after: seq<UserDoc>, music: seq<MusicDoc>, d: UserDoc, track: ObjectId)
    requires FindUserById(users, d.id) == Some(d)
    requires FindUserById(after, d.id) == Some(d.(recentlyPlayed := ListSet.Add(d.recentlyPlayed, track)))
    requires |Populated(music, d.recentlyPlayed)| >= RecentlyPlayedCap
    ensures GetRecentlyPlayed(after, music, d.id) == GetRecentlyPlayed(users, music, d.id)
  {
    var shown := Populated(music, d.recentlyPlayed);
    var shownAfter := Populated(music, ListSet.Add(d.recentlyPlayed, track));
    PlayExtendsShown(music, d.recentlyPlayed, track);
    PrefixKept(shown, shownAfter, RecentlyPlayedCap);
    assert GetRecentlyPlayed(users, music, d.id) == Success(200, "", shown[..RecentlyPlayedCap]);
    assert GetRecentlyPlayed(after, music, d.id) == Success(200, "", shownAfter[..RecentlyPlayedCap]);
  }

  /** While every played track is stored, the reply is the tracks of the
      first twenty stored ids. */
  lemma ShownWhileStored(users: seq<UserDoc>, music: seq<MusicDoc>, nextId: ObjectId, d: UserDoc)
    requires UsersConsistent(users, nextId) && d in users
    requires forall i :: 0 <= i < |d.recentlyPlayed| ==> FindMusicById(music, d.recentlyPlayed[i]).Some?
    ensures var r := GetRecentlyPlayed(users, music, d.id);
            && r.Success?
            && |r.data| == (if |d.recentlyPlayed| <= RecentlyPlayedCap then |d.recentlyPlayed| else RecentlyPlayedCap)
            && forall i :: 0 <= i < |r.data| ==> r.data[i].id == d.recentlyPlayed[i]
  {
    FindStoredUser(users, nextId, d);
    PopulatedAllStored(music, d.recentlyPlayed);
  }

  /** A deleted track is not sent; the later tracks take its place. */
  lemma DeletedTrackSkipped(users: seq<UserDoc>, music: seq<MusicDoc>, requester: ObjectId, gone: ObjectId)
    requires FindMusicById(music, gone).None?
    ensures var r := GetRecentlyPlayed(users, music, requester);
            r.Success? ==> && (forall t :: t in r.data ==> t.id != gone)
                           && Populated(music, FindUserById(users, requester).value.recentlyPlayed)
                              == Populated(music, ListSet.RemoveAll(FindUserById(users, requester).value.recentlyPlayed, gone))
  {
    var r := GetRecentlyPlayed(users, music, requester);
    if r.Success? {
      var played := FindUserById(users, requester).value.recentlyPlayed;
      GoneIdSkipped(music, played, gone);
      forall t | t in r.data ensures t.id != gone {
        var shown := Populated(music, played);
        assert t in shown by {
          var k :| 0 <= k < |r.data| && r.data[k] == t;
          assert shown[k] == t;
        }
      }
    }
  }

  /** `$addToSet` on the stored user is what the next lookup finds. */
  lemma PlayRecorded(users: seq<UserDoc>, nextId: ObjectId, d: UserDoc, track: ObjectId)
    requires UsersConsistent(users, nextId) && d in users
    ensures FindUserById(AddRecentlyPlayed(users, d.id, track), d.id) == Some(d.(recentlyPlayed := ListSet.Add(d.recentlyPlayed, track)))
  {
    var after := AddRecentlyPlayed(users, d.id, track);
    AddRecentlyPlayedKeepsConsistent(users, nextId, d.id, track);
    var k :| 0 <= k < |users| && users[k] == d;
    var e := d.(recentlyPlayed := ListSet.Add(d.recentlyPlayed, track));
    assert after[k] == e;
    FindStoredUser(after, nextId, e);
  }

  /** Cutting a sequence and a sequence it starts with at the same point gives the same prefix. */
  lemma PrefixKept<T>(s: seq<T>, t: seq<T>, n: nat)
    requires n <= |s| <= |t| && t[..|s|] == s
    ensures t[..n] == s[..n]
  {
    assert t[..n] == t[..|s|][..n];
  }

  /** Below the cap, a stored track played for the first time is the last one sent. */
  lemma NewPlayShownLast(users: seq<UserDoc>, music: seq<MusicDoc>, nextId: ObjectId, d: UserDoc, m: MusicDoc)
    requires UsersConsistent(users, nextId) && d in users
    requires FindMusicById(music, m.id) == Some(m)
    requires |Populated(music, d.recentlyPlayed)| < RecentlyPlayedCap && m.id !in d.recentlyPlayed
    ensures GetRecentlyPlayed(AddRecentlyPlayed(users, d.id, m.id), music, d.id)
            == Success(200, "", Populated(music, d.recentlyPlayed) + [m])
  {
    PlayRecorded(users, nextId, d, m.id);
    PopulatedConcat(music, d.recentlyPlayed, [m.id]);
    assert Populated(music, [m.id]) == [m];
  }

  // ---------------------------------------------------------------- updateProfile

  /** `favoriteGenres` in the request body: absent (or another falsy value), an
      array, or a string. */
  datatype GenresInput = NoGenres | GenreArray(items: seq<string>) | GenreText(text: string)

  datatype ProfileUpdate = ProfileUpdate(firstName: Input<string>, lastName: Input<string>, bio: Input<string>,
                                         favoriteGenres: GenresInput)

  /** A name path assigned through the `trim` setter; `null` clears it. */
  function NameAssigned(current: Option<string>, given: Input<string>): Option<string> {
    match given
    case Undefined => current
    case Null => None
    case Given(s) => Some(Trim(s))
  }

  /** The new `favoriteGenres`: every array replaces the list (even an empty
      one, which is truthy), each entry through the `trim` setter; a non-empty
      string is parsed as a comma list; anything falsy keeps the list. */
  function GenresAssigned(current: seq<string>, given: GenresInput): (r: seq<string>)
    ensures given.GenreText? && given.text != "" ==> r == CommaList(given.text)
  {
    match given
    case NoGenres => current
    case GenreArray(items) => TrimAll(items)
    case GenreText(t) =>
      if t == "" then current
      else
        // the setter trims entries that the parsing already trimmed
        TrimAllOfClean(CommaList(t));
        TrimAll(CommaList(t))
  }

  /** The document `updateProfile` saves. */
  function ProfileUpdated(d: UserDoc, u: ProfileUpdate): (e: UserDoc)
    ensures e.(firstName := d.firstName, lastName := d.lastName, bio := d.bio, favoriteGenres := d.favoriteGenres) == d
    ensures u.firstName.Undefined? ==> e.firstName == d.firstName
    ensures u.lastName.Undefined? ==> e.lastName == d.lastName
    ensures u.bio.Undefined? ==> e.bio == d.bio
    ensures u.favoriteGenres.NoGenres? || u.favoriteGenres == GenreText("") ==> e.favoriteGenres == d.favoriteGenres
    ensures u.firstName.Given? ==> e.firstName.Some? && Trimmed(e.firstName.value)
    ensures u.lastName.Given? ==> e.lastName.Some? && Trimmed(e.lastName.value)
    ensures u.favoriteGenres.GenreText? && u.favoriteGenres.text != "" ==>
              e.favoriteGenres == CommaList(u.favoriteGenres.text)
  {
    d.(firstName := NameAssigned(d.firstName, u.firstName), lastName := NameAssigned(d.lastName, u.lastName),
       bio := match u.bio case Undefined => d.bio case Null => None case Given(b) => Some(b),
       favoriteGenres := GenresAssigned(d.favoriteGenres, u.favoriteGenres))
  }

  /** Sending the same update twice stores what sending it once stores. */
  lemma ProfileUpdateIdempotent(d: UserDoc, u: ProfileUpdate)
    ensures ProfileUpdated(ProfileUpdated(d, u), u) == ProfileUpdated(d, u)
  {
    if u.firstName.Given? { TrimIdempotent(u.firstName.value); }
    if u.lastName.Given? { TrimIdempotent(u.lastName.value); }
    if u.favoriteGenres.GenreArray? {
      var items := u.favoriteGenres.items;
      forall i | 0 <= i < |items| ensures Trim(TrimAll(items)[i]) == TrimAll(items)[i] {
        TrimIdempotent(items[i]);
      }
    }
  }

  /** Genres sent as the comma join of clean names are stored as exactly those names. */
  lemma GenresTextRoundTrip(d: UserDoc, u: ProfileUpdate, genres: seq<string>)
    requires |genres| >= 1 && forall i :: 0 <= i < |genres| ==> CleanItem(genres[i])
    requires u.favoriteGenres == GenreText(Join(genres, ","))
    ensures ProfileUpdated(d, u).favoriteGenres == genres
  {
    CommaListJoin(genres);
  }

  /** The name and bio bounds of the schema, the only validators an update can break. */
  predicate ProfileBounded(e: UserDoc) {
    LengthAtMost(e.firstName, NameMaxLength) && LengthAtMost(e.lastName, NameMaxLength)
    && LengthAtMost(e.bio, BioMaxLength)
  }

  /** `updateProfile`: 404 for a missing user, otherwise the updated user is
      saved and sent back serialized. */
  function UpdateProfileOutcome(users: seq<UserDoc>, requester: ObjectId, u: ProfileUpdate): (r: (Reply<PublicUser>, seq<UserDoc>))
    ensures FindUserById(users, requester).None? ==> r == (Failure(404, UserNotFound), users)
    ensures r.0.Success? ==> FindUserById(users, requester).Some?
    ensures r.0.Success? ==> var e := ProfileUpdated(FindUserById(users, requester).value, u);
                             r == (Success(200, ProfileSaved, e.ToJson()), Put(users, UserId, e))
    ensures !r.0.Success? ==> r.0.Failure? && r.1 == users
  {
    match FindUserById(users, requester)
    case None => (Failure(404, UserNotFound), users)
    case Some(d) =>
      var e := ProfileUpdated(d, u);
      UserSaved(users, e, false, Success(200, ProfileSaved, e.ToJson()))
  }

  /** In a consistent store an update of a stored user succeeds exactly when
      the names and the bio keep within their bounds; otherwise the validation
      error reaches the error handler as 400 and nothing is written. */
  lemma UpdateProfileSucceedsIffBounded(users: seq<UserDoc>, nextId: ObjectId, d: UserDoc, u: ProfileUpdate)
    requires UsersConsistent(users, nextId) && d in users
    ensures var r := UpdateProfileOutcome(users, d.id, u);
            (r.0.Success? <==> ProfileBounded(ProfileUpdated(d, u)))
            && (!r.0.Success? ==> r.0.status == 400 && r.1 == users)
            && UsersConsistent(r.1, nextId)
  {
    FindStoredUser(users, nextId, d);
    var e := ProfileUpdated(d, u);
    assert SchemaValid(d);
    assert SchemaValid(e) <==> ProfileBounded(e);
    SaveKeepsUsersConsistent(users, nextId, e, false);
    if SchemaValid(e) {
      ResaveSucceeds(users, nextId, d, e, false);
    } else {
      FirstValidationMessage(e);
      RefusedSaveIs400(ValidationFailed(ValidationErrors(e)));
    }
  }

  /** `if (x !== undefined) user.profile.x = x` for the two names. */
  method AssignNames(user: User, u: ProfileUpdate)
    modifies user
    ensures user.Doc() == old(user.Doc()).(firstName := NameAssigned(old(user.firstName), u.firstName),
                                           lastName := NameAssigned(old(user.lastName), u.lastName))
    ensures user.passwordModified == old(user.passwordModified)
  {
    match u.firstName {
      case Undefined =>
      case Null => user.firstName := None;
      case Given(s) => user.firstName := Some(Trim(s));
    }
    match u.lastName {
      case Undefined =>
      case Null => user.lastName := None;
      case Given(s) => user.lastName := Some(Trim(s));
    }
  }

  /** The bio and the favourite genres. */
  method AssignBioAndGenres(user: User, u: ProfileUpdate)
    modifies user
    ensures user.Doc() == old(user.Doc()).(bio := ProfileUpdated(old(user.Doc()), u).bio,
                                           favoriteGenres := GenresAssigned(old(user.favoriteGenres), u.favoriteGenres))
    ensures user.passwordModified == old(user.passwordModified)
  {
    match u.bio {
      case Undefined =>
      case Null => user.bio := None;
      case Given(b) => user.bio := Some(b);
    }
    match u.favoriteGenres
    case NoGenres =>
    case GenreArray(items) => user.favoriteGenres := TrimAll(items);
    case GenreText(t) =>
      if t != "" {
        user.favoriteGenres := TrimAll(CommaList(t));
      }
  }

  method UpdateProfile(db: Database, requester: ObjectId, u: ProfileUpdate) returns (reply: Reply<PublicUser>)
    requires db.Valid()
    modifies db
    ensures db.Valid() && db.music == old(db.music) && db.nextId == old(db.nextId)
    ensures (reply, db.users) == UpdateProfileOutcome(old(db.users), requester, u)
  {
    var found := FindUserById(db.users, requester);
    if found.None? {
      return Failure(404, UserNotFound);
    }
    var user := new User.Hydrate(found.value);
    AssignNames(user, u);
    AssignBioAndGenres(user, u);
    assert user.Doc() == ProfileUpdated(found.value, u);
    reply := SaveUserReply(db, user, Success(200, ProfileSaved, user.Doc().ToJson()));
  }

  // ---------------------------------------------------------------- avatar

  /** `uploadAvatar` with the path multer stored the image at (`None`: no
      file): the path replaces the avatar and is sent back. */
  function UploadAvatarOutcome(users: seq<UserDoc>, requester: ObjectId, file: Option<string>): (r: (Reply<string>, seq<UserDoc>))
    ensures file.None? ==> r == (Failure(400, ImageRequired), users)
    ensures file.Some? && FindUserById(users, requester).None? ==> r == (Failure(404, UserNotFound), users)
    ensures r.0.Success? ==> file.Some? && FindUserById(users, requester).Some? && r.0.data == file.value
    ensures r.0.Success? ==> r.1 == Put(users, UserId, FindUserById(users, requester).value.(avatar := file))
    ensures !r.0.Success? ==> r.0.Failure? && r.1 == users
  {
    if file.None? then (Failure(400, ImageRequired), users)
    else match FindUserById(users, requester)
      case None => (Failure(404, UserNotFound), users)
      case Some(d) => UserSaved(users, d.(avatar := file), false, Success(200, AvatarUploaded, file.value))
  }

  /** `deleteAvatar`: 404, then 400 when no avatar is set (null or empty),
      otherwise the avatar becomes null. The reply carries no data. */
  function DeleteAvatarOutcome(users: seq<UserDoc>, requester: ObjectId): (r: (Reply<()>, seq<UserDoc>))
    ensures FindUserById(users, requester).None? ==> r == (Failure(404, UserNotFound), users)
    ensures FindUserById(users, requester).Some? && !Present(FindUserById(users, requester).value.avatar) ==>
              r == (Failure(400, NoAvatar), users)
    ensures r.0.Success? ==> FindUserById(users, requester).Some? && Present(FindUserById(users, requester).value.avatar)
    ensures r.0.Success? ==> r.1 == Put(users, UserId, FindUserById(users, requester).value.(avatar := None))
    ensures !r.0.Success? ==> r.0.Failure? && r.1 == users
  {
    match FindUserById(users, requester)
    case None => (Failure(404, UserNotFound), users)
    case Some(d) =>
      if !Present(d.avatar) then (Failure(400, NoAvatar), users)
      else UserSaved(users, d.(avatar := None), false, Success(200, AvatarDeleted, ()))
  }

  /** The avatar is not validated, so in a consistent store an upload for a
      stored user always succeeds and the store stays consistent. */
  lemma AvatarUploadSucceeds(users: seq<UserDoc>, nextId: ObjectId, d: UserDoc, path: string)
    requires UsersConsistent(users, nextId) && d in users
    ensures var r := UploadAvatarOutcome(users, d.id, Some(path));
            r == (Success(200, AvatarUploaded, path), Put(users, UserId, d.(avatar := Some(path))))
            && UsersConsistent(r.1, nextId)
  {
    FindStoredUser(users, nextId, d);
    assert SchemaValid(d);
    ResaveSucceeds(users, nextId, d, d.(avatar := Some(path)), false);
    SaveKeepsUsersConsistent(users, nextId, d.(avatar := Some(path)), false);
  }

  /** Uploading an avatar and deleting it leaves the user as it was with no
      avatar; a second delete is refused with 400 and writes nothing. */
  lemma AvatarUploadThenDelete(users: seq<UserDoc>, nextId: ObjectId, d: UserDoc, path: string)
    requires UsersConsistent(users, nextId) && d in users && path != ""
    ensures var uploaded := UploadAvatarOutcome(users, d.id, Some(path)).1;
            var deleted := DeleteAvatarOutcome(uploaded, d.id);
            deleted.0 == Success(200, AvatarDeleted, ())
            && FindUserById(deleted.1, d.id) == Some(d.(avatar := None))
            && DeleteAvatarOutcome(deleted.1, d.id) == (Failure(400, NoAvatar), deleted.1)
  {
    AvatarUploadSucceeds(users, nextId, d, path);
    var uploaded := UploadAvatarOutcome(users, d.id, Some(path)).1;
    var e := d.(avatar := Some(path));
    FindUserAfterPut(users, e);
    PutMembers(users, UserId, e);
    assert e in uploaded;
    AvatarDeleteOnce(uploaded, nextId, e);
  }

  /** Deleting a set avatar succeeds; deleting it again is refused with 400. */
  lemma AvatarDeleteOnce(users: seq<UserDoc>, nextId: ObjectId, d: UserDoc)
    requires UsersConsistent(users, nextId) && d in users && Present(d.avatar)
    ensures var deleted := DeleteAvatarOutcome(users, d.id);
            deleted == (Success(200, AvatarDeleted, ()), Put(users, UserId, d.(avatar := None)))
            && FindUserById(deleted.1, d.id) == Some(d.(avatar := None))
            && DeleteAvatarOutcome(deleted.1, d.id) == (Failure(400, NoAvatar), deleted.1)
  {
    FindStoredUser(users, nextId, d);
    assert SchemaValid(d);
    var e := d.(avatar := None);
    ResaveSucceeds(users, nextId, d, e, false);
    FindUserAfterPut(users, e);
  }

  method UploadAvatar(db: Database, requester: ObjectId, file: Option<string>) returns (reply: Reply<string>)
    requires db.Valid()
    modifies db
    ensures db.Valid() && db.music == old(db.music) && db.nextId == old(db.nextId)
    ensures (reply, db.users) == UploadAvatarOutcome(old(db.users), requester, file)
  {
    if file.None? {
      return Failure(400, ImageRequired);
    }
    var found := FindUserById(db.users, requester);
    if found.None? {
      return Failure(404, UserNotFound);
    }
    var user := new User.Hydrate(found.value);
    user.avatar := file;
    reply := SaveUserReply(db, user, Success(200, AvatarUploaded, file.value));
  }

  method DeleteAvatar(db: Database, requester: ObjectId) returns (reply: Reply<()>)
    requires db.Valid()
    modifies db
    ensures db.Valid() && db.music == old(db.music) && db.nextId == old(db.nextId)
    ensures (reply, db.users) == DeleteAvatarOutcome(old(db.users), requester)
  {
    var found := FindUserById(db.users, requester);
    if found.None? {
      return Failure(404, UserNotFound);
    }
    var user := new User.Hydrate(found.value);
    if !Present(user.avatar) {
      return Failure(400, NoAvatar);
    }
    user.avatar := None;
    reply := SaveUserReply(db, user, Success(200, AvatarDeleted, ()));
  }

  // ---------------------------------------------------------------- changePassword

  /** `changePassword`: both fields, then the new password's length, then the
      user, then the current password; the new plaintext is then saved and
      hashed by the pre-save hook. */
  function ChangePasswordOutcome(users: seq<UserDoc>, requester: ObjectId, current: Option<string>, newPassword: Option<string>)
    : (r: (Reply<()>, seq<UserDoc>))
    ensures !Present(current) || !Present(newPassword) ==> r == (Failure(400, PasswordsRequired), users)
    ensures Present(current) && Present(newPassword) && |newPassword.value| < PasswordMinLength ==>
              r == (Failure(400, NewPasswordTooShort), users)
    ensures Present(current) && Present(newPassword) && |newPassword.value| >= PasswordMinLength ==>
              && (FindUserById(users, requester).None? ==> r == (Failure(404, UserNotFound), users))
              && (FindUserById(users, requester).Some? && !Matches(current.value, FindUserById(users, requester).value.password) ==>
                    r == (Failure(400, WrongCurrentPassword), users))
    ensures r.0.Success? ==> FindUserById(users, requester).Some? && Matches(current.value, FindUserById(users, requester).value.password)
    ensures r.0.Success? ==> r.1 == Put(users, UserId, FindUserById(users, requester).value.(password := Hashed(Plain(newPassword.value))))
    ensures !r.0.Success? ==> r.0.Failure? && r.1 == users
  {
    if !Present(current) || !Present(newPassword) then (Failure(400, PasswordsRequired), users)
    else if |newPassword.value| < PasswordMinLength then (Failure(400, NewPasswordTooShort), users)
    else match FindUserById(users, requester)
      case None => (Failure(404, UserNotFound), users)
      case Some(d) =>
        if !Matches(current.value, d.password) then (Failure(400, WrongCurrentPassword), users)
        else UserSaved(users, d.(password := Plain(newPassword.value)), true, Success(200, PasswordChanged, ()))
  }

  /** In a consistent store the change succeeds exactly when every guard
      passes, and then the user stores the hash of the new password. */
  lemma ChangePasswordSucceedsIff(users: seq<UserDoc>, nextId: ObjectId, d: UserDoc, current: Option<string>, newPassword: Option<string>)
    requires UsersConsistent(users, nextId) && d in users
    ensures var r := ChangePasswordOutcome(users, d.id, current, newPassword);
            (r.0.Success? <==> Present(current) && Present(newPassword) && |newPassword.value| >= PasswordMinLength
                               && Matches(current.value, d.password))
            && (r.0.Success? ==> FindUserById(r.1, d.id) == Some(d.(password := Hashed(Plain(newPassword.value)))))
            && UsersConsistent(r.1, nextId)
  {
    FindStoredUser(users, nextId, d);
    if Present(current) && Present(newPassword) && |newPassword.value| >= PasswordMinLength && Matches(current.value, d.password) {
      var e := d.(password := Plain(newPassword.value));
      assert SchemaValid(d);
      ResaveSucceeds(users, nextId, d, e, true);
      SaveKeepsUsersConsistent(users, nextId, e, true);
      FindUserAfterPut(users, HookApplied(e, true));
    }
  }

  /** After a change the new password logs in and a different old one is
      refused as a bad credential. */
  lemma NewPasswordLogsIn(users: seq<UserDoc>, nextId: ObjectId, d: UserDoc, email: string, current: string, newPassword: string)
    requires UsersConsistent(users, nextId) && d in users && d.isVerified && d.email == EmailKey(email) && email != ""
    requires current != "" && |newPassword| >= PasswordMinLength && Matches(current, d.password)
    ensures var after := ChangePasswordOutcome(users, d.id, Some(current), Some(newPassword)).1;
            AuthController.LoginOutcome(after, Some(email), Some(newPassword)).Accepted?
            && (current != newPassword ==>
                  AuthController.LoginOutcome(after, Some(email), Some(current)) == AuthController.Rejected(401, AuthController.BadCredentials, false))
  {
    var e := d.(password := Hashed(Plain(newPassword)));
    PasswordChangeStored(users, nextId, d, current, newPassword);
    FindByEmailAfterResave(users, nextId, d, e, email);
    LoginAfterChange(Put(users, UserId, e), email, e, current, newPassword);
  }

  /** The store after an accepted change. */
  lemma PasswordChangeStored(users: seq<UserDoc>, nextId: ObjectId, d: UserDoc, current: string, newPassword: string)
    requires UsersConsistent(users, nextId) && d in users
    requires current != "" && |newPassword| >= PasswordMinLength && Matches(current, d.password)
    ensures ChangePasswordOutcome(users, d.id, Some(current), Some(newPassword)).1
            == Put(users, UserId, d.(password := Hashed(Plain(newPassword))))
  {
    FindStoredUser(users, nextId, d);
    assert SchemaValid(d);
    var e := d.(password := Plain(newPassword));
    ResaveSucceeds(users, nextId, d, e, true);
    ChangeReachesSave(users, d, current, newPassword);
  }

  /** Past the guards, the change is the save of the new plaintext. */
  lemma ChangeReachesSave(users: seq<UserDoc>, d: UserDoc, current: string, newPassword: string)
    requires FindUserById(users, d.id) == Some(d)
    requires current != "" && |newPassword| >= PasswordMinLength && Matches(current, d.password)
    ensures ChangePasswordOutcome(users, d.id, Some(current), Some(newPassword))
            == UserSaved(users, d.(password := Plain(newPassword)), true, Success(200, PasswordChanged, ()))
  {
  }

  /** A verified user found by the email logs in with the password its hash was
      made from, and with no other. */
  lemma LoginAfterChange(users: seq<UserDoc>, email: string, e: UserDoc, current: string, newPassword: string)
    requires email != "" && current != "" && newPassword != "" && e.isVerified && e.password == Hashed(Plain(newPassword))
    requires FindUserByEmail(users, email) == Some(e)
    ensures AuthController.LoginOutcome(users, Some(email), Some(newPassword)).Accepted?
    ensures current != newPassword ==>
              AuthController.LoginOutcome(users, Some(email), Some(current)) == AuthController.Rejected(401, AuthController.BadCredentials, false)
  {
    MatchesOnlyItsPassword(newPassword, current);
  }

  method ChangePassword(db: Database, requester: ObjectId, current: Option<string>, newPassword: Option<string>) returns (reply: Reply<()>)
    requires db.Valid()
    modifies db
    ensures db.Valid() && db.music == old(db.music) && db.nextId == old(db.nextId)
    ensures (reply, db.users) == ChangePasswordOutcome(old(db.users), requester, current, newPassword)
  {
    if !Present(current) || !Present(newPassword) {
      return Failure(400, PasswordsRequired);
    }
    if |newPassword.value| < PasswordMinLength {
      return Failure(400, NewPasswordTooShort);
    }
    var found := FindUserById(db.users, requester);
    if found.None? {
      return Failure(404, UserNotFound);
    }
    var user := new User.Hydrate(found.value);
    if !Matches(current.value, user.password) {
      return Failure(400, WrongCurrentPassword);
    }
    user.AssignPassword(newPassword.value);
    reply := SaveUserReply(db, user, Success(200, PasswordChanged, ()));
  }

  // ---------------------------------------------------------------- deleteAccount

  datatype AccountResult = AccountResult(reply: Reply<()>, users: seq<UserDoc>, music: seq<MusicDoc>)

  /** `deleteAccount`: the password, then the user, then the password check;
      then every track the user uploaded and the user itself are removed. */
  function DeleteAccountOutcome(users: seq<UserDoc>, music: seq<MusicDoc>, requester: ObjectId, password: Option<string>): (r: AccountResult)
    ensures !Present(password) ==> r == AccountResult(Failure(400, PasswordRequiredToDelete), users, music)
    ensures r.reply.Success? <==> Present(password) && FindUserById(users, requester).Some?
                                  && Matches(password.value, FindUserById(users, requester).value.password)
    ensures r.reply.Success? ==> (forall x :: x in r.users <==> x in users && x.id != requester)
                                 && (forall t :: t in r.music <==> t in music && t.uploadedBy != requester)
    ensures !r.reply.Success? ==> r.reply.Failure? && r.users == users && r.music == music
  {
    if !Present(password) then AccountResult(Failure(400, PasswordRequiredToDelete), users, music)
    else match FindUserById(users, requester)
      case None => AccountResult(Failure(404, UserNotFound), users, music)
      case Some(d) =>
        if !Matches(password.value, d.password) then AccountResult(Failure(400, WrongPassword), users, music)
        else AccountResult(Success(200, AccountDeleted, ()),
                           Without(users, (x: UserDoc) => x.id == d.id),
                           Without(music, (t: MusicDoc) => t.uploadedBy == d.id))
  }

  /** After a deletion the store stays consistent, the profile is gone, no track
      of the user is left, the user's email no longer logs in, and the tracks of
      others are kept as they were, the likes the user gave them included. */
  lemma DeletedAccountIsGone(users: seq<UserDoc>, music: seq<MusicDoc>, nextId: ObjectId, d: UserDoc, password: string, email: string)
    requires UsersConsistent(users, nextId) && d in users && d.email == EmailKey(email) && email != ""
    requires DeleteAccountOutcome(users, music, d.id, Some(password)).reply.Success?
    ensures var r := DeleteAccountOutcome(users, music, d.id, Some(password));
            UsersConsistent(r.users, nextId)
            && GetProfile(r.users, r.music, d.id) == Failure(404, UserNotFound)
            && MusicController.OwnTracks(r.music, d.id) == []
            && AuthController.LoginOutcome(r.users, Some(email), Some(password)) == AuthController.Rejected(401, AuthController.BadCredentials, false)
            && (forall t :: t in music && t.uploadedBy != d.id ==> t in r.music)
  {
    FindStoredUser(users, nextId, d);
    var rest := Without(users, (x: UserDoc) => x.id == d.id);
    AccountRemoved(users, nextId, d, email);
    NoTracksLeft(music, d.id);
    assert AuthController.LoginOutcome(rest, Some(email), Some(password)) == AuthController.Rejected(401, AuthController.BadCredentials, false);
  }

  /** Removing a user by id keeps the store consistent and leaves neither its
      id nor its email behind. */
  lemma AccountRemoved(users: seq<UserDoc>, nextId: ObjectId, d: UserDoc, email: string)
    requires UsersConsistent(users, nextId) && d in users && d.email == EmailKey(email)
    ensures var rest := Without(users, (x: UserDoc) => x.id == d.id);
            UsersConsistent(rest, nextId) && FindUserById(rest, d.id).None? && FindUserByEmail(rest, email).None?
  {
    var rest := Without(users, (x: UserDoc) => x.id == d.id);
    forall i | 0 <= i < |rest| ensures rest[i].id != d.id && rest[i].email != d.email {
      assert rest[i] in rest;
    }
  }

  /** Once the tracks an owner uploaded are deleted, none of theirs is listed. */
  lemma NoTracksLeft(music: seq<MusicDoc>, owner: ObjectId)
    ensures MusicController.OwnTracks(Without(music, (t: MusicDoc) => t.uploadedBy == owner), owner) == []
  {
    var rest := Without(music, (t: MusicDoc) => t.uploadedBy == owner);
    MusicController.CountIsFilteredLength(rest, (t: MusicDoc) => t.uploadedBy == owner, (t: MusicDoc) => t.uploadedBy != owner);
    assert forall i :: 0 <= i < |rest| ==> rest[i] in rest;
  }

  method DeleteAccount(db: Database, requester: ObjectId, password: Option<string>) returns (reply: Reply<()>)
    requires db.Valid()
    modifies db
    ensures db.Valid() && db.nextId == old(db.nextId)
    ensures AccountResult(reply, db.users, db.music) == DeleteAccountOutcome(old(db.users), old(db.music), requester, password)
  {
    if !Present(password) {
      return Failure(400, PasswordRequiredToDelete);
    }
    var found := FindUserById(db.users, requester);
    if found.None? {
      return Failure(404, UserNotFound);
    }
    var user := new User.Hydrate(found.value);
    if !Matches(password.value, user.password) {
      return Failure(400, WrongPassword);
    }
    db.DeleteMusicUploadedBy(user.id);
    db.DeleteUserById(user.id);
    reply := Success(200, AccountDeleted, ());
  }
}

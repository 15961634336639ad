/** The Music document (backend/models/Music.js): schema bounds and defaults,
    `like`, `unlike`, `incrementPlayCount` and the `likeCount` and
    `formattedDuration` virtuals.

    The methods of the `Music` class change the in-memory document; the `save()`
    each of them ends with is the store write the calling handler performs next
    (module Store). */
module MusicModel {
  import opened Wrappers
  import opened Text
  import opened ListSet
  import UserModel

  type ObjectId = UserModel.ObjectId

  const TitleMaxLength: nat := 100
  const ArtistMaxLength: nat := 100
  const AlbumMaxLength: nat := 100
  const GenreMaxLength: nat := 50
  const DurationMin: int := 1

  /** The validators' messages. */
  const TitleRequired := "Tytuł utworu jest wymagany"
  const TitleTooLong := "Tytuł nie może przekraczać 100 znaków"
  const ArtistRequired := "Artysta jest wymagany"
  const ArtistTooLong := "Nazwa artysty nie może przekraczać 100 znaków"
  const AlbumTooLong := "Nazwa albumu nie może przekraczać 100 znaków"
  const GenreTooLong := "Gatunek nie może przekraczać 50 znaków"
  const DurationTooShort := "Czas trwania musi być większy niż 0"
  const FilePathRequired := "Ścieżka do pliku jest wymagana"
  const MimeTypeRequired := "Path `mimeType` is required."

  datatype MusicDoc = MusicDoc(
    id: ObjectId,
    title: string,
    artist: string,
    album: Option<string>,
    genre: Option<string>,
    /** Seconds; no handler ever sets it. */
    duration: Option<int>,
    filePath: string,
    fileSize: nat,
    mimeType: string,
    coverImage: Option<string>,
    uploadedBy: ObjectId,
    isPublic: bool,
    playCount: int,
    likes: seq<ObjectId>,
    tags: seq<string>)
  {
    /** The `likeCount` virtual. */
    function LikeCount(): nat {
      |likes|
    }

    /** The `formattedDuration` virtual: `Math.floor(d / 60)`, a colon, then
        `d % 60` (JavaScript's remainder, which keeps the sign of `d`) padded to
        two characters with zeros; an unset duration gives `NaN:NaN`. */
    function FormattedDuration(): string {
      match duration
      case None => "NaN:NaN"
      case Some(d) => IntToString(d / 60) + ":" + PadStartZeros(IntToString(TruncatedRemainder(d, 60)), 2)
    }
  }

  /** JavaScript's `%`: the remainder of the division truncated toward zero. */
  function TruncatedRemainder(a: int, b: nat): (r: int)
    requires b > 0
    ensures a >= 0 ==> 0 <= r < b && r == a % b
    ensures a < 0 ==> -(b as int) < r <= 0 && -r == (-a) % b
  {
    if a >= 0 then a % b else -((-a) % b)
  }

  /** For a duration of `d >= 0` seconds the text is the whole minutes, a colon
      and exactly two digits of seconds, and reading both numbers back gives `d`. */
  lemma {:induction false} FormattedDurationRoundTrip(doc: MusicDoc, d: nat)
    requires doc.duration == Some(d)
    ensures var text := doc.FormattedDuration();
            var minutes := NatToString(d / 60);
            && StartsWith(text, minutes) && text[|minutes|] == ':'
            && |text| == |minutes| + 3
            && AllDigits(text[|minutes| + 1..])
            && DigitsValue(minutes) * 60 + DigitsValue(text[|minutes| + 1..]) == d
  {
    var minutes := NatToString(d / 60);
    var seconds := PadStartZeros(NatToString(d % 60), 2);
    assert doc.FormattedDuration() == minutes + ":" + seconds;
    TwoDigits(d % 60);
    NatToStringValue(d / 60);
    assert (minutes + ":" + seconds)[|minutes| + 1..] == seconds;
  }

  /** The seconds field: two digits whose value is the number itself. */
  lemma TwoDigits(n: nat)
    requires n < 60
    ensures var s := PadStartZeros(NatToString(n), 2);
            |s| == 2 && AllDigits(s) && DigitsValue(s) == n
  {
    var t := NatToString(n);
    NatToStringValue(n);
    if n < 10 {
      assert PadStartZeros(t, 2) == "0" + t;
      assert ("0" + t)[..1] == "0";
    }
  }

  /** An unset duration, which is what every uploaded track has, renders as `NaN:NaN`. */
  lemma UnsetDuration(doc: MusicDoc)
    requires doc.duration.None?
    ensures doc.FormattedDuration() == "NaN:NaN"
  {
  }

  /** A like from a new user raises `likeCount` by one; a repeated like leaves it. */
  lemma LikeCountAfterLike(doc: MusicDoc, user: ObjectId)
    ensures doc.(likes := Add(doc.likes, user)).LikeCount()
            == doc.LikeCount() + (if user in doc.likes then 0 else 1)
  {
    AddSize(doc.likes, user);
  }

  /** An unlike lowers `likeCount` by one exactly when the user had liked the track
      (likes are kept free of duplicates). */
  lemma LikeCountAfterUnlike(doc: MusicDoc, user: ObjectId)
    requires NoDup(doc.likes)
    ensures doc.(likes := RemoveAll(doc.likes, user)).LikeCount()
            == doc.LikeCount() - (if user in doc.likes then 1 else 0)
  {
    RemoveAllSize(doc.likes, user);
  }

  /** The schema paths that carry a validator, as the schema declares them. */
  datatype SchemaPath = Title | Artist | Album | Genre | Duration | FilePath | MimeType

  const ValidatedPaths: seq<SchemaPath> := [Title, Artist, Album, Genre, Duration, FilePath, MimeType]

  /** The message of the validator of one path that fails, if any. */
  function PathError(d: MusicDoc, p: SchemaPath): (e: seq<string>)
    ensures |e| <= 1 && forall i :: 0 <= i < |e| ==> e[i] != ""
  {
    match p
    case Title => RequiredTextError(d.title, TitleMaxLength, TitleRequired, TitleTooLong)
    case Artist => RequiredTextError(d.artist, ArtistMaxLength, ArtistRequired, ArtistTooLong)
    case Album => OptionalTextError(d.album, AlbumMaxLength, AlbumTooLong)
    case Genre => OptionalTextError(d.genre, GenreMaxLength, GenreTooLong)
    case Duration => if d.duration.Some? && d.duration.value < DurationMin then [DurationTooShort] else []
    case FilePath => if d.filePath == "" then [FilePathRequired] else []
    case MimeType => if d.mimeType == "" then [MimeTypeRequired] else []
  }

  /** The messages of the failing validators along `paths`, in order. */
  function ErrorsAlong(d: MusicDoc, paths: seq<SchemaPath>): seq<string> {
    if paths == [] then [] else PathError(d, paths[0]) + ErrorsAlong(d, paths[1..])
  }

  /** Every message is non-empty, and there is none exactly when every validator
      along `paths` passes. */
  lemma {:induction false} ErrorsAlongPass(d: MusicDoc, paths: seq<SchemaPath>)
    ensures forall i :: 0 <= i < |ErrorsAlong(d, paths)| ==> ErrorsAlong(d, paths)[i] != ""
    ensures ErrorsAlong(d, paths) == [] <==> forall i :: 0 <= i < |paths| ==> PathError(d, paths[i]) == []
  {
    if paths != [] {
      ErrorsAlongPass(d, paths[1..]);
      assert forall i :: 1 <= i < |paths| ==> paths[i] == paths[1..][i - 1];
      NonEmptyConcat(PathError(d, paths[0]), ErrorsAlong(d, paths[1..]));
    }
  }

  /** Two lists of non-empty messages concatenate to one, empty exactly when both are. */
  lemma NonEmptyConcat(head: seq<string>, rest: seq<string>)
    requires forall i :: 0 <= i < |head| ==> head[i] != ""
    requires forall i :: 0 <= i < |rest| ==> rest[i] != ""
    ensures forall i :: 0 <= i < |head + rest| ==> (head + rest)[i] != ""
    ensures head + rest == [] <==> head == [] && rest == []
  {
    assert forall i :: 0 <= i < |head + rest| ==> (head + rest)[i] == if i < |head| then head[i] else rest[i - |head|];
  }

  /** Every path in `ValidatedPaths` passes exactly when the schema accepts the document. */
  lemma ValidatedPathsPass(d: MusicDoc)
    ensures (forall i :: 0 <= i < |ValidatedPaths| ==> PathError(d, ValidatedPaths[i]) == []) <==> SchemaValid(d)
  {
    if forall i :: 0 <= i < |ValidatedPaths| ==> PathError(d, ValidatedPaths[i]) == [] {
      assert PathError(d, ValidatedPaths[0]) == [] && PathError(d, ValidatedPaths[1]) == [];
      assert PathError(d, ValidatedPaths[2]) == [] && PathError(d, ValidatedPaths[3]) == [];
      assert PathError(d, ValidatedPaths[4]) == [] && PathError(d, ValidatedPaths[5]) == [];
      assert PathError(d, ValidatedPaths[6]) == [];
    }
  }

  /** The validation messages of the failing paths, in schema order. */
  function ValidationErrors(d: MusicDoc): (errors: seq<string>)
    ensures forall i :: 0 <= i < |errors| ==> errors[i] != ""
    ensures errors == [] <==> SchemaValid(d)
  {
    ErrorsAlongPass(d, ValidatedPaths);
    ValidatedPathsPass(d);
    ErrorsAlong(d, ValidatedPaths)
  }

  /** Two documents that agree on every validated path get the same messages. */
  lemma {:induction false} SameErrorsAlong(d: MusicDoc, e: MusicDoc, paths: seq<SchemaPath>)
    requires forall p :: PathError(d, p) == PathError(e, p)
    ensures ErrorsAlong(d, paths) == ErrorsAlong(e, paths)
  {
    if paths != [] {
      SameErrorsAlong(d, e, paths[1..]);
    }
  }

  /** A required string path with a maximum length: `required` speaks first. */
  function RequiredTextError(s: string, bound: nat, missing: string, tooLong: string): (e: seq<string>)
    ensures e == [] <==> s != "" && |s| <= bound
    ensures forall i :: 0 <= i < |e| ==> e[i] in {missing, tooLong}
  {
    if s == "" then [missing] else if |s| > bound then [tooLong] else []
  }

  /** An optional string path with a maximum length. */
  function OptionalTextError(s: Option<string>, bound: nat, tooLong: string): (e: seq<string>)
    ensures e == [] <==> s.None? || |s.value| <= bound
    ensures forall i :: 0 <= i < |e| ==> e[i] == tooLong
  {
    if s.Some? && |s.value| > bound then [tooLong] else []
  }

  /** Every validator of the schema passes. */
  predicate SchemaValid(d: MusicDoc) {
    && d.title != "" && |d.title| <= TitleMaxLength
    && d.artist != "" && |d.artist| <= ArtistMaxLength
    && (d.album.None? || |d.album.value| <= AlbumMaxLength)
    && (d.genre.None? || |d.genre.value| <= GenreMaxLength)
    && (d.duration.None? || d.duration.value >= DurationMin)
    && d.filePath != "" && d.mimeType != ""
  }

  /** The document `Music.create` builds from an upload: the `trim` setters on the
      text paths, and the defaults `isPublic: true`, `coverImage: null`,
      `playCount: 0`, no likes. */
  function NewMusicDoc(id: ObjectId, title: string, artist: string, album: Option<string>, genre: Option<string>,
                       filePath: string, fileSize: nat, mimeType: string, uploadedBy: ObjectId,
                       tags: seq<string>): (d: MusicDoc)
    ensures d.isPublic && d.coverImage.None? && d.playCount == 0 && d.likes == [] && d.duration.None?
    ensures d.uploadedBy == uploadedBy && d.title == Trim(title) && d.artist == Trim(artist)
  {
    MusicDoc(id, Trim(title), Trim(artist), UserModel.TrimOpt(album), UserModel.TrimOpt(genre), None,
             filePath, fileSize, mimeType, None, uploadedBy, true, 0, [], TrimAll(tags))
  }

  /** The in-memory document a handler works on. */
  class Music {
    const id: ObjectId
    var title: string
    var artist: string
    var album: Option<string>
    var genre: Option<string>
    var duration: Option<int>
    var filePath: string
    var fileSize: nat
    var mimeType: string
    var coverImage: Option<string>
    var uploadedBy: ObjectId
    var isPublic: bool
    var playCount: int
    var likes: seq<ObjectId>
    var tags: seq<string>

    function Doc(): MusicDoc
      reads this
    {
      MusicDoc(id, title, artist, album, genre, duration, filePath, fileSize, mimeType,
               coverImage, uploadedBy, isPublic, playCount, likes, tags)
    }

    /** A document loaded from the store. */
    constructor Hydrate(d: MusicDoc)
      ensures Doc() == d
    {
      id := d.id;
      title, artist, album, genre, duration := d.title, d.artist, d.album, d.genre, d.duration;
      filePath, fileSize, mimeType := d.filePath, d.fileSize, d.mimeType;
      coverImage, uploadedBy, isPublic, playCount := d.coverImage, d.uploadedBy, d.isPublic, d.playCount;
      likes, tags := d.likes, d.tags;
    }

    /** `like(userId)`: the user is pushed onto `likes` only when absent. */
    method Like(user: ObjectId)
      modifies this
      ensures Doc() == old(Doc()).(likes := Add(old(likes), user))
    {
      if user !in likes {
        likes := likes + [user];
      }
    }

    /** `unlike(userId)`: `likes` is reassigned with every entry of the user filtered out. */
    method Unlike(user: ObjectId)
      modifies this
      ensures Doc() == old(Doc()).(likes := RemoveAll(old(likes), user))
    {
      likes := RemoveAll(likes, user);
    }

    /** `incrementPlayCount()`: `playCount += 1`. */
    method IncrementPlayCount()
      modifies this
      ensures Doc() == old(Doc()).(playCount := old(playCount) + 1)
    {
      playCount := playCount + 1;
    }
  }

  /** Liking keeps `likes` free of duplicates, and liking twice is liking once. */
  lemma LikeKeepsSet(likes: seq<ObjectId>, user: ObjectId)
    requires NoDup(likes)
    ensures NoDup(Add(likes, user)) && Add(Add(likes, user), user) == Add(likes, user)
  {
    AddKeepsNoDup(likes, user);
    AddIdempotent(likes, user);
  }

  /** A like followed by an unlike from a user who had not liked the track
      restores `likes` exactly. */
  lemma LikeThenUnlike(likes: seq<ObjectId>, user: ObjectId)
    requires user !in likes
    ensures RemoveAll(Add(likes, user), user) == likes
  {
    RemoveAfterAdd(likes, user);
  }

  /** An unlike drops every entry of the user and keeps the others, in order
      and with their multiplicities. */
  lemma UnlikeKeepsOthers(likes: seq<ObjectId>, user: ObjectId, other: ObjectId)
    requires other != user
    ensures user !in RemoveAll<ObjectId>(likes, user)
    ensures multiset(RemoveAll<ObjectId>(likes, user))[other] == multiset(likes)[other]
  {
    RemoveAllKeepsOthers<ObjectId>(likes, user, other);
  }
}

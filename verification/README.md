# A verified model of the music-sharing backend

This project models the core of a music-sharing service in Dafny. The service
has a REST backend (Express and Mongoose) and an administration panel. The
model covers these parts of the backend:

- the `User`, `Music` and `Playlist` documents, with their validators, setters,
  pre-save hook, instance methods and virtuals;
- the OTP generator;
- the `protect` and `otpRequired` middleware;
- the central error handler;
- the multer upload configuration;
- the auth, music and user controllers.

It also covers the panel's persisted auth store (`useAuthStore`).

## Layout

| module | file | models |
|---|---|---|
| `Wrappers` | wrappers.dfy | `Option` and `Reply`; `Reply` is the HTTP answer of a handler: `Success`, `Failure(status, message)` or `Unanswered` |
| `Text` | text.dfy | JavaScript string operations the core relies on: ASCII `toLowerCase`, `trim`, `split`, `join`, `padStart`, number printing and `parseInt` |
| `ListSet` | list_set.dfy | arrays of ids used as sets: push-unless-included, filter-out, and their laws |
| `OtpGenerator` | otp_generator.dfy | `backend/utils/otpGenerator.js` |
| `UserModel` | user_model.dfy | `backend/models/User.js`; the in-memory document is class `User` |
| `MusicModel` | music_model.dfy | `backend/models/Music.js`; the in-memory document is class `Music` |
| `PlaylistModel` | playlist_model.dfy | `backend/models/Playlist.js`; the in-memory document is class `Playlist` |
| `Store` | store.dfy | the two collections: `findById`, `findOne`, `save` with validation, the pre-save hook and the unique indexes, and the deletes; the class `Database` holds them |
| `ErrorHandler` | error_handler.dfy | `backend/middleware/errorHandler.js` |
| `AuthMiddleware` | auth_middleware.dfy | `backend/middleware/auth.js` |
| `AuthController` | auth_controller.dfy | `backend/controllers/authController.js` |
| `MusicController` | music_controller.dfy | `backend/controllers/musicController.js` |
| `UserController` | user_controller.dfy | `backend/controllers/userController.js` |
| `Upload` | upload.dfy | `backend/middleware/upload.js` |
| `AuthStorage` | auth_storage.dfy | `admin/src/state/storage.ts` |

## How the model is built

- A handler loads a document and hydrates a `User` or `Music` object. It
  assigns fields in place and then calls `save`. The model follows the same
  steps: a method on class `Database` stores the new state.
- Every handler is specified by a pure "outcome" function. That function gives
  the reply and the collections afterwards. The handler method `ensures` it
  meets that outcome, and lemmas prove the outcome's properties.

Where the code relies on something outside the model, the model takes it as a
parameter or an abstraction:

| in the code | in the model |
|---|---|
| bcrypt | a credential that is either `Plain(text)` or `Hashed(credential)`; `bcrypt.compare(p, c)` holds exactly when `c == Hashed(Plain(p))` |
| JWT verification | a map `Verifier` from token to user id |
| `jwt.sign` | `Token(id)` |
| the clock and `Math.random()` | parameters (`now`, and `draws`: reals in `[0, 1)`) |
| e-mail delivery | a boolean `mailDelivered` |
| the body the panel receives from `fetch` | a parameter `RefreshResponse` |

A handler whose `catch` block only logs answers nothing; its reply is
`Unanswered`. Mongoose runs schema setters on query filters, so a lookup by
email lower-cases and trims the address before comparing.

What the proofs show about the code as written:

- Recently played tracks:
  - `playMusic` records a track with `$addToSet`, which appends it at the end.
  - `getRecentlyPlayed` populates the stored ids, which drops those whose
    track is gone, and sends the first twenty tracks.
  - Once twenty stored tracks are shown, further plays never change the reply
    (`UserController.RecentlyPlayedFrozenAtCap`). Only deleting one of the
    shown tracks does: the later tracks move up
    (`UserController.DeletedTrackSkipped`).
- Listings: `page` and `limit` are read with `parseInt` and used unchecked.
  - `limit=0` sets no limit, so every matching track is sent, and
    `totalPages` is `null` (`MusicController.ZeroLimitSendsEveryPublicTrack`).
  - A page below one with a positive limit makes the skip negative. The server
    refuses the query: `getAllMusic` then sends nothing, while `getMyMusic`
    and `getLikedMusic` answer 500 (`MusicController.NonPositivePageReplies`,
    `UserController.LikedNonPositivePage`).
- MP3 uploads: the music filter matches type names inside the mimetype text.
  The registered MP3 type `audio/mpeg` contains none of them, so it is refused
  whatever the file name is (`Upload.MpegMimetypeRejected`).
- OTP expiry: `isOTPValid` on the user and `isValidOTP` in the generator
  disagree at the expiry instant itself (`UserModel.OtpValidityDisagreement`).
- `getMusicById` is not behind `protect`:
  - An anonymous request for a public track succeeds.
  - A request for a private track fails with 500, even from its owner
    (`MusicController.GetMusicByIdAsRouted`).
- Token refresh from the panel:
  - The panel's store posts the refresh token in the body, but
    `POST /auth/refresh-token` is behind `protect`, which reads the
    `Authorization` header. The refresh therefore always resolves to false
    (`AuthStorage.RefreshRefusedByGate`).
  - Were it let through, the reply carries `token`, not `access_token` and
    `refresh_token`. The store would then stay authenticated with no tokens
    (`AuthStorage.AdmittedRefreshDropsTokens`).
- `register` answers with a token (backend/controllers/authController.js:107).
- The user schema has no `role` field, though the panel's `User` type has one.

## Model

| member | source | states |
|---|---|---|
| `Text.Lower` | backend/models/User.js:18 | ASCII lower-casing keeps the length and maps each character on its own |
| `Text.LowerIdempotent` | backend/models/User.js:18 | lower-casing twice is lower-casing once |
| `Text.TrimStart` | backend/models/User.js:9 | what is cut from the front is whitespace, and what is left does not start with whitespace |
| `Text.TrimEnd` | backend/models/User.js:9 | what is cut from the back is whitespace, and what is left does not end with whitespace |
| `Text.Trim` | backend/models/User.js:9 | the result is trimmed and no longer than the input (where it sits in the input is `Text.TrimIsMiddle`) |
| `Text.TrimCuts` | backend/models/User.js:9 | trimming keeps only characters of the input, and gives "" exactly for all-whitespace input |
| `Text.TrimIsMiddle` | backend/models/User.js:9 | the result is the contiguous stretch of the input that follows its leading whitespace, and only whitespace precedes and follows it |
| `Text.TrimIdempotent` | backend/models/User.js:9 | trimming twice is trimming once |
| `Text.IndexOf` | backend/models/User.js:20 | the first position of a character, or None exactly when it is absent |
| `Text.Split` | backend/middleware/auth.js:9-11 | `split` on one character gives at least one piece and no piece holds the separator |
| `Text.SplitJoin` | backend/controllers/musicController.js:111-114 | splitting the join of separator-free pieces gives the pieces back |
| `Text.JoinSplit` | backend/controllers/musicController.js:111-114 | joining the pieces of a split gives the text back |
| `Text.TrimAll` | backend/controllers/musicController.js:113 | `map(tag => tag.trim())` trims each entry in place |
| `Text.DropEmpty` | backend/controllers/musicController.js:113 | `filter(tag => tag)` keeps exactly the non-empty entries |
| `Text.CommaList` | backend/controllers/musicController.js:111-114 | every tag the comma list yields is non-empty and trimmed |
| `Text.CommaListJoin` | backend/controllers/musicController.js:111-114 | clean tags sent as their comma join are read back as exactly those tags |
| `Text.DigitChar` | backend/models/Music.js:108 | a digit below ten prints as a digit character |
| `Text.NatToString` | backend/models/Music.js:108 | a number prints as at least one digit, and as exactly one below ten |
| `Text.NatToStringValue` | backend/models/Music.js:108 | reading the printed digits gives the number back |
| `Text.PadStartZeros` | backend/models/Music.js:108 | `padStart(w, '0')` gives the longer of the text and `w`, and ends with the text |
| `Text.DigitPrefix` | backend/controllers/musicController.js:10-11 | the longest run of leading digits |
| `Text.HexDigitPrefix` | backend/controllers/musicController.js:10-11 | the longest run of leading hexadecimal digits, read after a `0x` prefix |
| `Text.ParseInt` | backend/controllers/musicController.js:10-11 | `parseInt` gives a number exactly when digits follow the blanks and the sign |
| `Text.Magnitude` | backend/controllers/musicController.js:10-11 | the unsigned value is defined exactly when there is at least one digit, hexadecimal after `0x` |
| `Text.IntToString` | backend/models/Music.js:106-108 | an integer prints as its digits, after a minus sign when negative |
| `Text.ParseIntOfNatToString` | backend/controllers/musicController.js:10-11 | `parseInt` of a printed number gives it back |
| `Text.ParseIntOfDigits` | backend/controllers/musicController.js:10-11 | `parseInt` of a string of decimal digits is the number those digits denote |
| `ListSet.Add` | backend/models/Music.js:90-96 | push-unless-included: the id is present afterwards, the old array is a prefix, and nothing else is added |
| `ListSet.RemoveAll` | backend/models/Music.js:99-102 | filtering out an id leaves no copy of it and only old entries |
| `ListSet.AddSize` | backend/models/Music.js:90-96 | the length grows by one exactly when the id was absent |
| `ListSet.AddKeepsNoDup` | backend/models/Music.js:90-96 | an array without duplicates keeps that property |
| `ListSet.AddIdempotent` | backend/models/Music.js:90-96 | adding twice is adding once |
| `ListSet.RemoveAllAbsent` | backend/models/Music.js:99-102 | filtering out an absent id changes nothing |
| `ListSet.RemoveAllMultiset` | backend/models/Music.js:99-102 | the filter removes every copy of the id and nothing else, counted as a multiset |
| `ListSet.RemoveAllSize` | backend/models/Music.js:99-102 | without duplicates, the length drops by one exactly when the id was present |
| `ListSet.RemoveAllKeepsNoDup` | backend/models/Music.js:99-102 | an array without duplicates keeps that property |
| `ListSet.RemoveAllIdempotent` | backend/models/Music.js:99-102 | filtering twice is filtering once |
| `ListSet.RemoveAllKeepsOthers` | backend/models/Music.js:99-102 | every other id keeps its count |
| `ListSet.RemoveAfterAdd` | backend/models/Music.js:90-102 | removing a newly added id restores the array |
| `OtpGenerator.Pick` | backend/utils/otpGenerator.js:6-7 | `chars[Math.floor(Math.random() * chars.length)]` is a character of the alphabet |
| `OtpGenerator.Drawn` | backend/utils/otpGenerator.js:1-10 | one alphabet character per draw |
| `OtpGenerator.GenerateOtp` | backend/utils/otpGenerator.js:1-10 | the loop builds the string of the digits picked by the first `length` draws, six when no length is given |
| `OtpGenerator.GenerateRandomString` | backend/utils/otpGenerator.js:31-40 | the loop builds the string of the alphanumerics picked by the first `length` draws, thirty-two when no length is given |
| `OtpGenerator.OtpShape` | backend/utils/otpGenerator.js:1-10 | a code has one digit per draw and only digits |
| `OtpGenerator.DrawFor` | backend/utils/otpGenerator.js:6-7 | for each index there is a draw in `[0, 1)` that selects it |
| `OtpGenerator.IndexIn` | backend/utils/otpGenerator.js:6-7 | each alphabet character has an index that selects it |
| `OtpGenerator.DrawsFor` | backend/utils/otpGenerator.js:1-10 | every string over the alphabet has draws that select it, one per character |
| `OtpGenerator.EveryStringReachable` | backend/utils/otpGenerator.js:1-10 | every string over the alphabet can be generated |
| `OtpGenerator.GetExpiryTime` | backend/utils/otpGenerator.js:12-14 | the expiry lies exactly `minutes` minutes, in milliseconds, after now; `minutes` defaults to 30 |
| `OtpGenerator.DefaultExpiryHalfHour` | backend/utils/otpGenerator.js:12-14 | called without minutes, the expiry is half an hour after now |
| `OtpGenerator.IsValidOtp` | backend/utils/otpGenerator.js:16-29 | valid exactly when a code is given, equals the stored one, an expiry is set and now is not after it |
| `OtpGenerator.IssuedCodeWindow` | backend/utils/otpGenerator.js:16-29 | a code issued at `t` with `m` minutes of validity is checked against its own expiry |
| `OtpGenerator.ValidOtpBoundary` | backend/utils/otpGenerator.js:25-28 | a matching code is accepted at the expiry instant and refused one millisecond later |
| `OtpGenerator.MismatchNeverValid` | backend/utils/otpGenerator.js:21-23 | a code different from the stored one is never valid |
| `UserModel.MatchesOnlyItsPassword` | backend/models/User.js:93-95 | `comparePassword` accepts the hash of a password for that password and no other |
| `UserModel.RehashBreaksLogin` | backend/models/User.js:80-90 | a hash hashed again matches no password |
| `UserModel.UsernameShapeTrimmed` | backend/models/User.js:5-13 | a username the pattern accepts is unchanged by the `trim` setter |
| `UserModel.SplitIsFirstAt` | backend/models/User.js:20 | an address split at its first `@` into two dotted-word parts has the email shape |
| `UserModel.EmailShapeLower` | backend/models/User.js:18-20 | the `lowercase` setter keeps an address that has the email shape in that shape |
| `UserModel.DottedWordsLower` | backend/models/User.js:20 | lower-casing keeps the `\w+([.-]?\w+)*` shape |
| `UserModel.DomainShapeLower` | backend/models/User.js:20 | lower-casing keeps the domain shape |
| `UserModel.EmailShapeTrimmed` | backend/models/User.js:19-20 | an address with the email shape is unchanged by `trim` |
| `UserModel.UserDoc.FullName` | backend/models/User.js:109-114 | first name, a space and last name when both are set, the username otherwise |
| `UserModel.ProjectionIgnoresSecrets` | backend/models/User.js:117-124 | `toJSON` does not depend on the password or the OTP |
| `UserModel.ProjectionKeepsTheRest` | backend/models/User.js:117-124 | two documents with the same serialization differ at most in the password and the OTP |
| `UserModel.ValidationErrors` | backend/models/User.js:4-70 | there are no messages exactly when the document passes the schema's validators |
| `UserModel.FirstValidationMessage` | backend/models/User.js:4-70 | a refused document has a non-empty first message |
| `UserModel.TrimOpt` | backend/models/User.js:42-59 | the `trim` setter on an optional path keeps absence and trims a present value |
| `UserModel.NewUserDoc` | backend/models/User.js:4-70 | a new user is unverified, with no OTP, no avatar and empty lists, and holds its plaintext password until the hook runs |
| `UserModel.User.Hydrate` | backend/models/User.js:4-70 | a loaded document, with the password not marked modified |
| `UserModel.User.Create` | backend/models/User.js:4-70 | a new document, with the password marked modified |
| `UserModel.User.AssignPassword` | backend/controllers/userController.js:265 | assigning the password changes only it and marks it modified |
| `UserModel.User.AssignOtp` | backend/controllers/authController.js:284-290 | assigning the OTP changes the code and the expiry only |
| `UserModel.User.ClearOtp` | backend/models/User.js:98-101 | `clearOTP` empties the code and the expiry and nothing else |
| `UserModel.User.PreSave` | backend/models/User.js:80-90 | the hook hashes a modified password once and leaves an unmodified document alone |
| `UserModel.OtpValidityDisagreement` | backend/models/User.js:104-106 | for a matching code the two expiry checks agree except at the expiry instant, where only `isValidOTP` accepts |
| `MusicModel.TruncatedRemainder` | backend/models/Music.js:107 | JavaScript `%`: the sign of the dividend, and a magnitude below the divisor |
| `MusicModel.FormattedDurationRoundTrip` | backend/models/Music.js:105-109 | the text is the minutes, a colon and exactly two digits, and reading both back gives the duration |
| `MusicModel.TwoDigits` | backend/models/Music.js:108 | seconds below sixty print as exactly two digits with their value |
| `MusicModel.UnsetDuration` | backend/models/Music.js:105-109 | with no duration the virtual reads `NaN:NaN` |
| `MusicModel.LikeCountAfterLike` | backend/models/Music.js:90-96 | `likeCount` grows by one exactly when the user had not liked the track |
| `MusicModel.LikeCountAfterUnlike` | backend/models/Music.js:99-102 | `likeCount` drops by one exactly when the user had liked the track |
| `MusicModel.PathError` | backend/models/Music.js:3-45 | at most one non-empty message per schema path |
| `MusicModel.ErrorsAlongPass` | backend/models/Music.js:3-45 | the messages are non-empty and absent exactly when every path passes |
| `MusicModel.ValidatedPathsPass` | backend/models/Music.js:3-45 | every validated path passes exactly when the track satisfies the schema |
| `MusicModel.ValidationErrors` | backend/models/Music.js:3-45 | there are no messages exactly when the track passes the schema's validators |
| `MusicModel.SameErrorsAlong` | backend/models/Music.js:3-45 | two tracks that agree on every path get the same messages |
| `MusicModel.RequiredTextError` | backend/models/Music.js:4-15 | a required text passes exactly when it is non-empty and within its bound, and otherwise reports one of its two messages |
| `MusicModel.OptionalTextError` | backend/models/Music.js:16-25 | an optional text passes exactly when it is absent or within its bound |
| `MusicModel.NewMusicDoc` | backend/models/Music.js:3-66 | a new track is public, with no cover, no likes, no plays and no duration, and has trimmed title and artist |
| `MusicModel.Music.Hydrate` | backend/models/Music.js:3-75 | the loaded document |
| `MusicModel.Music.Like` | backend/models/Music.js:90-96 | `like` pushes the user unless already present, and changes nothing else |
| `MusicModel.Music.Unlike` | backend/models/Music.js:99-102 | `unlike` filters the user out, and changes nothing else |
| `MusicModel.Music.IncrementPlayCount` | backend/models/Music.js:84-87 | one more play, and nothing else changes |
| `MusicModel.LikeKeepsSet` | backend/models/Music.js:90-96 | likes stay free of duplicates, and a second like changes nothing |
| `MusicModel.LikeThenUnlike` | backend/models/Music.js:90-102 | an unlike after a first like restores the likes |
| `MusicModel.UnlikeKeepsOthers` | backend/models/Music.js:99-102 | an unlike removes that user's like and keeps everyone else's |
| `PlaylistModel.PlaylistDoc.TotalDuration` | backend/models/Playlist.js:59-62 | the virtual is always zero |
| `PlaylistModel.Playlist.Create` | backend/models/Playlist.js:3-41 | a new playlist is private and has no tracks and no followers |
| `PlaylistModel.Playlist.AddTrack` | backend/models/Playlist.js:65-71 | the track is added unless present, and the lists stay free of duplicates |
| `PlaylistModel.Playlist.RemoveTrack` | backend/models/Playlist.js:74-77 | the track is filtered out, and the lists stay free of duplicates |
| `PlaylistModel.Playlist.Follow` | backend/models/Playlist.js:80-86 | the follower is added unless present |
| `PlaylistModel.Playlist.Unfollow` | backend/models/Playlist.js:89-92 | the follower is filtered out |
| `PlaylistModel.TrackCountAfterAdd` | backend/models/Playlist.js:49-51 | `trackCount` grows by one exactly for a new track |
| `PlaylistModel.TrackCountAfterRemove` | backend/models/Playlist.js:49-51 | `trackCount` drops by one exactly for a present track |
| `PlaylistModel.FollowerCountAfterFollow` | backend/models/Playlist.js:54-56 | `followerCount` follows `follow` and `unfollow` by one exactly when membership changes |
| `PlaylistModel.AddThenRemoveRestores` | backend/models/Playlist.js:65-92 | removing a newly added track or follower restores the list |
| `Store.RefusedSaveIs400` | backend/middleware/errorHandler.js:14-24 | a refused save, passed to the error handler, is answered 400 with the validation messages or the duplicate-key message |
| `Store.First` | backend/controllers/authController.js:68-70 | `findOne` finds a document exactly when one matches, and what it finds matches |
| `Store.PutShape` | backend/controllers/musicController.js:240 | `save` replaces the document with that id in place, or appends a new one |
| `Store.PutMembers` | backend/controllers/musicController.js:240 | after `save` the collection holds the saved document and every document with another id |
| `Store.Without` | backend/controllers/musicController.js:286 | a delete keeps exactly the documents the filter does not match |
| `Store.Count` | backend/controllers/musicController.js:37 | `countDocuments` is zero exactly when nothing matches |
| `Store.FindUserById` | backend/controllers/userController.js:9 | `findById` finds a user exactly when one has the id |
| `Store.FindMusicById` | backend/controllers/musicController.js:59 | `findById` finds a track exactly when one has the id |
| `Store.FindUserByEmail` | backend/controllers/authController.js:139 | `findOne({ email })` compares against the address as the setters store it |
| `Store.FindUserByEmailOrUsername` | backend/controllers/authController.js:68-70 | the `$or` query finds a user exactly when one has the email or the username |
| `Store.HookApplied` | backend/models/User.js:80-90 | the pre-save hook hashes a modified password and changes nothing else |
| `Store.Clash` | backend/models/User.js:8-17 | no unique-index conflict exactly when no other user has the username or the email |
| `Store.SaveUserOutcome` | backend/models/User.js:4-90 | a user is written, hashed by the hook, exactly when it passes validation and the unique indexes; otherwise nothing changes |
| `Store.SaveKeepsUsersConsistent` | backend/models/User.js:8-17 | a save keeps ids, usernames and emails unique and every stored password hashed |
| `Store.ResaveHasNoClash` | backend/models/User.js:8-17 | a stored user saved back with the same id, username and email meets no conflict |
| `Store.PutFresh` | backend/controllers/musicController.js:117-127 | a document with a new id is appended |
| `Store.PutOverLast` | backend/controllers/musicController.js:240 | saving over the last-written document replaces it |
| `Store.PutTwice` | backend/controllers/musicController.js:240 | the second save of a document wins |
| `Store.PutStored` | backend/controllers/musicController.js:240 | saving a stored, unchanged document changes nothing |
| `Store.FindMusicAfterPut` | backend/controllers/musicController.js:59 | a track is found by its id right after it is saved |
| `Store.FirstOfUnique` | backend/controllers/authController.js:139 | when only one document matches, `findOne` returns it |
| `Store.FindByEmailAfterResave` | backend/controllers/authController.js:227-229 | a user saved back with the same id and email is what the next lookup by that email finds |
| `Store.SaveMusicOutcome` | backend/models/Music.js:3-75 | a track is written exactly when it passes validation; otherwise nothing changes |
| `Store.SaveKeepsMusicConsistent` | backend/models/Music.js:3-75 | a save keeps the track ids unique and every stored track valid |
| `Store.AddRecentlyPlayed` | backend/controllers/musicController.js:381-384 | `$addToSet` adds the track to that user's list and leaves every other user as it was |
| `Store.AddRecentlyPlayedKeepsConsistent` | backend/controllers/musicController.js:381-384 | the update keeps the user collection consistent |
| `Store.AddRecentlyPlayedKeepsValid` | backend/controllers/musicController.js:381-384 | every user stays valid |
| `Store.AddRecentlyPlayedKeepsUnique` | backend/controllers/musicController.js:381-384 | ids, usernames and emails stay unique |
| `Store.RecentlyPlayedKeepsKeys` | backend/controllers/musicController.js:381-384 | recording a play changes no id, username or email, so distinct documents keep distinct keys |
| `Store.RecentlyPlayedNotValidated` | backend/models/User.js:66-69 | no validator looks at `recentlyPlayed` |
| `Store.Database.Empty` | backend/models/User.js:4-70 | an empty database |
| `Store.Database.FreshId` | backend/models/Music.js:3-75 | a new id, used by no stored document |
| `Store.Database.SaveUser` | backend/models/User.js:80-90 | the users become the save's outcome, and a valid in-memory user is hashed by the hook |
| `Store.Database.SaveExisting` | backend/controllers/authController.js:288-290 | saving a stored user back with its id, username and email puts it in place |
| `Store.Database.SaveMusic` | backend/controllers/musicController.js:240 | the tracks become the save's outcome |
| `Store.Database.DeleteMusicById` | backend/controllers/musicController.js:286 | `findByIdAndDelete` removes exactly the track with that id |
| `Store.Database.DeleteMusicUploadedBy` | backend/controllers/userController.js:332 | `deleteMany({ uploadedBy })` removes exactly that user's tracks |
| `Store.Database.DeleteUserById` | backend/controllers/userController.js:335 | removes exactly the user with that id |
| `Store.Database.AddToRecentlyPlayed` | backend/controllers/musicController.js:381-384 | the users become those of `AddRecentlyPlayed` |
| `ErrorHandler.Classify` | backend/middleware/errorHandler.js:1-43 | each recognised error gets its status and message, every other one keeps its own, and the message is never empty |
| `ErrorHandler.HandleError` | backend/middleware/errorHandler.js:37-41 | the response is the classification of the error |
| `ErrorHandler.Forward` | backend/middleware/errorHandler.js:1-43 | `next(error)` ends in a failure with a message |
| `ErrorHandler.CastErrorIs400` | backend/middleware/errorHandler.js:8-11 | a malformed id is answered 400 |
| `ErrorHandler.DuplicateKeyIs400` | backend/middleware/errorHandler.js:14-18 | a duplicate key is answered 400, naming the first field |
| `ErrorHandler.ValidationErrorIs400` | backend/middleware/errorHandler.js:21-24 | a validation error is answered 400 with its messages joined by commas |
| `ErrorHandler.JoinNonEmpty` | backend/middleware/errorHandler.js:21-24 | messages whose first one is non-empty join to a non-empty text |
| `ErrorHandler.JoinStartsWithFirst` | backend/middleware/errorHandler.js:21-24 | the joined text starts with the first message |
| `ErrorHandler.TokenErrorsAre401` | backend/middleware/errorHandler.js:27-35 | bad and expired tokens are answered 401 with their own messages |
| `ErrorHandler.OtherErrorsKeepTheirStatus` | backend/middleware/errorHandler.js:4-5 | any other error keeps its status code and message, or gets 500 and the default message |
| `AuthMiddleware.BearerToken` | backend/middleware/auth.js:9-11 | a token comes only from a header starting with `Bearer`, and is non-empty and has no space |
| `AuthMiddleware.BearerTokenRoundTrip` | backend/middleware/auth.js:9-11 | `Bearer <token>` yields the token |
| `AuthMiddleware.BearerTokenIgnoresTheRest` | backend/middleware/auth.js:9-11 | only the second space-separated piece counts |
| `AuthMiddleware.NoSpaceNoToken` | backend/middleware/auth.js:9-18 | a header without a space yields no token |
| `AuthMiddleware.GateDecision` | backend/middleware/auth.js:5-49 | every refusal is 401, and an admitted request carries a stored, verified user |
| `AuthMiddleware.AdmitsExactlyVerifiedOwners` | backend/middleware/auth.js:5-49 | a request is admitted as a user exactly when its token verifies to that user's id and the user is verified |
| `AuthMiddleware.UnverifiedOwnerRefused` | backend/middleware/auth.js:35-40 | a valid token of an unverified user is refused with its own message |
| `AuthMiddleware.Request.constructor` | backend/middleware/auth.js:9-11 | a request with its headers and no user yet |
| `AuthMiddleware.Protect` | backend/middleware/auth.js:5-49 | `protect` decides as `GateDecision` and sets `req.user` exactly when it admits |
| `AuthMiddleware.OtpRequired` | backend/middleware/auth.js:60-82 | the request goes on exactly when the `x-otp-token` header is present, and is otherwise refused with 401 |
| `AuthController.UsernameCheckMatchesSchema` | backend/controllers/authController.js:25-28 | the handler's username check and the schema's agree exactly |
| `AuthController.PasswordCheckMatchesSchema` | backend/controllers/authController.js:20-22 | the handler's password check and the schema's bound agree |
| `AuthController.AcceptedInputIsSchemaValid` | backend/controllers/authController.js:44-65 | input that passes the handler's checks builds a valid user, before and after hashing |
| `AuthController.ConflictMessage` | backend/controllers/authController.js:72-85 | a conflict is reported exactly when the found user has the raw email or the username |
| `AuthController.RegisterCheck` | backend/controllers/authController.js:36-85 | every refusal of `register`'s checks is a 400 without `needsVerification`, and passing them means the input is valid |
| `AuthController.ConflictOrderIsPerDocument` | backend/controllers/authController.js:72-85 | the conflict reported is that of the first matching user |
| `AuthController.RegisteredUser` | backend/controllers/authController.js:88-101 | a new account is unverified, holds a hash its password matches, and holds the code and expiry |
| `AuthController.RegisterOutcome` | backend/controllers/authController.js:31-123 | `register` appends the new account only when its checks pass, and issues that account's token |
| `AuthController.RegisteredUserState` | backend/controllers/authController.js:95-101 | a new account's code has six digits and is valid for ten minutes, the expiry instant excluded |
| `AuthController.NoClashIffUnmatched` | backend/controllers/authController.js:68-92 | a new user meets a unique-index conflict exactly when the `$or` query finds someone |
| `AuthController.CreateAccount` | backend/controllers/authController.js:88-92 | `User.create` stores the hashed new user exactly when nobody has the address or the name |
| `AuthController.IssueOtp` | backend/controllers/authController.js:95-101 | the user gets a new six-digit code that expires ten minutes on, and is written back |
| `AuthController.Register` | backend/controllers/authController.js:31-123 | the reply and the users are `RegisterOutcome`'s |
| `AuthController.Login` | backend/controllers/authController.js:126-185 | the reply is `login`'s outcome, and nothing is written |
| `AuthController.LoginHidesWhichCredentialFailed` | backend/controllers/authController.js:141-156 | an unknown email and a wrong password get the same 401 |
| `AuthController.LoginIssuesTokenOnlyWhenVerified` | backend/controllers/authController.js:151-181 | a token is issued exactly to a verified user whose password matches, and an unverified one gets 401 with `needsVerification` |
| `AuthController.Verified` | backend/controllers/authController.js:227-229 | a verified account has no OTP left and keeps its identity and password |
| `AuthController.VerifyOtpAcceptsExactly` | backend/controllers/authController.js:188-224 | `verifyOTP`'s checks pass exactly when the account holds this code and now is strictly before the expiry |
| `AuthController.VerifyOtp` | backend/controllers/authController.js:188-252 | a refused request changes nothing; otherwise the account is verified, written back and sent with a token |
| `AuthController.VerifyOtpOnlyOnce` | backend/controllers/authController.js:211-229 | the same verification fails afterwards, because no code remains |
| `AuthController.ResendRefusesVerified` | backend/controllers/authController.js:276-281 | a verified account is never given a new code |
| `AuthController.ResendOtp` | backend/controllers/authController.js:255-302 | a refused request changes nothing; otherwise the code and the expiry are both replaced |
| `AuthController.ResentCodeReplacesOld` | backend/controllers/authController.js:284-290 | after a resend only the new code verifies, and only for ten minutes |
| `MusicController.QueryInt` | backend/controllers/musicController.js:9-11 | an absent query parameter reads as its default |
| `MusicController.CeilDiv` | backend/controllers/musicController.js:44 | `Math.ceil(total / limit)` is the least page count that covers the total, and is undefined for a zero limit |
| `MusicController.Skip` | backend/controllers/musicController.js:12 | `(page - 1) * limit` is negative exactly for a page below one with a positive limit, or a page above one with a negative limit |
| `MusicController.DefaultPagination` | backend/controllers/musicController.js:9-12 | without `page` and `limit` a listing is page 1 of pages of twenty |
| `MusicController.Window` | backend/controllers/musicController.js:33-34 | `skip` and `limit` give at most `limit` entries, those from position `(page - 1) * limit` on |
| `MusicController.Slice` | backend/controllers/musicController.js:33-34 | `skip(s).limit(l)` gives the entries from position `s` on: all of them for a zero limit, at most `abs(l)` otherwise |
| `MusicController.PagesCoverTheList` | backend/controllers/musicController.js:33-44 | pages 1 to `totalPages` are the whole list in order, and every later page is empty |
| `MusicController.NewestFirst` | backend/controllers/musicController.js:32 | `sort({ createdAt: -1 })` reverses the creation order |
| `MusicController.PageListing` | backend/controllers/musicController.js:9-47 | NaN exactly when a value reads as NaN; refused exactly when the skip is negative; otherwise only matching tracks, with the count as the total and the pagination of the query values |
| `MusicController.PublicTracks` | backend/controllers/musicController.js:15 | exactly the public tracks |
| `MusicController.OwnTracks` | backend/controllers/musicController.js:406 | exactly the requester's tracks |
| `MusicController.GetAllMusic` | backend/controllers/musicController.js:7-52 | a listing of the public tracks is sent with 200, and a refused query leaves the request unanswered |
| `MusicController.GetMyMusic` | backend/controllers/musicController.js:399-426 | a listing of the requester's tracks is sent with 200, and a refused query is forwarded to the error handler |
| `MusicController.CountIsFilteredLength` | backend/controllers/musicController.js:30-37 | `countDocuments` counts exactly the documents `find` lists |
| `MusicController.EntryOnItsPage` | backend/controllers/musicController.js:33-44 | each entry is on the page its position names, within `totalPages` |
| `MusicController.PublicTrackListedOnItsPage` | backend/controllers/musicController.js:7-52 | every public track is listed, newest first, on its page |
| `MusicController.ListingOfPage` | backend/controllers/musicController.js:9-47 | query values read as `page` and `limit` give that window of the list, and its pagination |
| `MusicController.ZeroLimitListsAll` | backend/controllers/musicController.js:9-47 | `limit=0` lists every matching track, newest first, on any page, with `totalPages` sent as `null` |
| `MusicController.NonPositivePageRefused` | backend/controllers/musicController.js:9-34 | a page below one with a positive limit gives a negative skip, which is refused |
| `MusicController.NegativeLimitListing` | backend/controllers/musicController.js:9-34 | with a negative limit, the query is refused exactly past page one, and otherwise lists at most `-limit` tracks from the skip on, which `Skip` shows is `(1 - page) * -limit` |
| `MusicController.NegativeSkipIs500` | backend/middleware/errorHandler.js:1-43 | the refusal of a negative skip reaches the client as 500 with the server's message |
| `MusicController.NonPositivePageReplies` | backend/controllers/musicController.js:7-52 | for a page below one, `getAllMusic` sends nothing and `getMyMusic` answers 500 |
| `MusicController.ZeroLimitSendsEveryPublicTrack` | backend/controllers/musicController.js:7-52 | `limit=0` makes `getAllMusic` send every public track, newest first, with `totalPages` `null` |
| `MusicController.GetMusicById` | backend/controllers/musicController.js:55-85 | 404 exactly for a missing track; a public track, or the requester's own, is returned; a private track gets 403 from another user and 500 with no user |
| `MusicController.GetMusicByIdAsRouted` | backend/controllers/musicController.js:71-76 | with no user on the request a public track is returned, and a private one fails with 500 |
| `MusicController.Saved` | backend/controllers/musicController.js:188 | a valid track is written and gets the success reply; a refused one changes nothing and is unanswered exactly when the catch is silent |
| `MusicController.RefusedSaveAnswered` | backend/controllers/musicController.js:248-249 | the error of a refused save gets the reply `Saved` gives, through `next` |
| `MusicController.SaveTrack` | backend/controllers/musicController.js:240 | the reply and the tracks are `Saved`'s |
| `MusicController.UploadedTrack` | backend/controllers/musicController.js:110-127 | the new track is the uploader's and public, has its file URL, and has the parsed, clean tags |
| `MusicController.UploadMusicOutcome` | backend/controllers/musicController.js:88-144 | 400 without a file, then 400 without a title or an artist; past those guards 201 with the stored track exactly when it validates, else no reply; a failure changes nothing |
| `MusicController.UploadAppends` | backend/controllers/musicController.js:117-127 | with a fresh id an accepted upload appends its track |
| `MusicController.UploadKeepsTags` | backend/controllers/musicController.js:111-114 | tags sent as a comma join of clean names are stored as exactly those |
| `MusicController.BlankTitleUploadUnanswered` | backend/controllers/musicController.js:101-144 | a title of spaces passes the handler's check, fails validation, and goes unanswered with nothing stored |
| `MusicController.UploadMusic` | backend/controllers/musicController.js:88-144 | the reply and the tracks are `UploadMusicOutcome`'s |
| `MusicController.UploadCoverOutcome` | backend/controllers/musicController.js:147-203 | 400 without a file, 404 for a missing track, 403 for a non-owner; only the owner's track gets the image URL, which is sent back; otherwise nothing changes |
| `MusicController.CountersNotValidated` | backend/models/Music.js:42-62 | no validator looks at likes, plays or the cover |
| `MusicController.OwnerCoverUploadSucceeds` | backend/controllers/musicController.js:170-188 | the owner's cover upload always succeeds, and the track is then found with its cover |
| `MusicController.UploadCoverImage` | backend/controllers/musicController.js:147-203 | the reply and the tracks are `UploadCoverOutcome`'s |
| `MusicController.Updated` | backend/controllers/musicController.js:230-238 | an update keeps the identity, file, counters and likes, gives clean tags, and an empty update changes nothing |
| `MusicController.UpdatedFieldByField` | backend/controllers/musicController.js:230-238 | the updated track is the field-by-field merge of the assignments |
| `MusicController.UpdateMusicOutcome` | backend/controllers/musicController.js:206-251 | only the owner's update is written, as `Updated`; a failure changes nothing, and every request is answered |
| `MusicController.RefusedUpdateIs400` | backend/controllers/musicController.js:240-249 | an update the schema refuses is answered 400 with its messages and changes nothing |
| `MusicController.BlankTitleUpdateRefused` | backend/controllers/musicController.js:230 | a title of spaces is refused as a missing title |
| `MusicController.OnlyOwnerUpdates` | backend/controllers/musicController.js:222-227 | anyone but the owner gets 403 and nothing changes |
| `MusicController.AssignUpdate` | backend/controllers/musicController.js:230-238 | the assignments make the document `Updated` |
| `MusicController.AssignNames` | backend/controllers/musicController.js:230-231 | a truthy title or artist is assigned through `trim` |
| `MusicController.AssignDetails` | backend/controllers/musicController.js:232-234 | a truthy album or genre is trimmed in, and `isPublic` is taken when it is a boolean |
| `MusicController.UpdateMusic` | backend/controllers/musicController.js:206-251 | the reply and the tracks are `UpdateMusicOutcome`'s |
| `MusicController.DeleteMusicOutcome` | backend/controllers/musicController.js:254-295 | 404 for a missing track and 403 for a non-owner, changing nothing; the owner's delete succeeds, removing that track and keeping every other |
| `MusicController.DeleteMusic` | backend/controllers/musicController.js:254-295 | the reply and the tracks are `DeleteMusicOutcome`'s |
| `MusicController.LikeMusicOutcome` | backend/controllers/musicController.js:298-333 | a like succeeds only for a track the requester has not liked, adding the like and sending the new count |
| `MusicController.UnlikeMusicOutcome` | backend/controllers/musicController.js:336-361 | an unlike of a stored track drops every like of the requester |
| `MusicController.LikeOnce` | backend/controllers/musicController.js:312-327 | a like adds one to the count, and the same like again gets 400 |
| `MusicController.UnlikeUndoesLike` | backend/controllers/musicController.js:298-361 | an unlike right after a like restores the tracks exactly |
| `MusicController.LikeMusic` | backend/controllers/musicController.js:298-333 | the reply and the tracks are `LikeMusicOutcome`'s |
| `MusicController.UnlikeMusic` | backend/controllers/musicController.js:336-361 | the reply and the tracks are `UnlikeMusicOutcome`'s |
| `MusicController.PlayMusicOutcome` | backend/controllers/musicController.js:364-396 | 404 for a missing track; a play adds to the recently played, and a failure changes nothing |
| `MusicController.StoredTrackPlays` | backend/controllers/musicController.js:378-391 | a valid stored track always plays: one more play, written back, and recorded for the requester |
| `MusicController.PlayTwice` | backend/controllers/musicController.js:378-384 | two plays count twice but record the track once |
| `MusicController.PlayFoundTwice` | backend/controllers/musicController.js:378-384 | for a stored, valid track, two plays count twice but record the track once |
| `MusicController.RecentlyPlayedTwice` | backend/controllers/musicController.js:381-384 | recording a track twice is recording it once |
| `MusicController.PlaySteps` | backend/controllers/musicController.js:378-391 | the steps on a loaded track give `PlayMusicOutcome` |
| `MusicController.PlayMusic` | backend/controllers/musicController.js:364-396 | the reply, the tracks and the users are `PlayMusicOutcome`'s |
| `MusicController.PlayFound` | backend/controllers/musicController.js:378-391 | once the track is loaded, the result is `PlayMusicOutcome`'s |
| `UserController.UserSaved` | backend/controllers/userController.js:67 | a user who passes the save is written, hashed by the hook; otherwise the reply is a failure and nothing changes |
| `UserController.ResaveSucceeds` | backend/controllers/userController.js:67 | a stored user saved back with its identity and a valid state is always written |
| `UserController.SaveUserReply` | backend/controllers/userController.js:67 | the reply and the users are `UserSaved`'s |
| `UserController.FindStoredUser` | backend/controllers/userController.js:9 | `findById` loads the stored user with that id |
| `UserController.FindUserAfterPut` | backend/controllers/userController.js:67 | a user is found by its id right after it is written |
| `UserController.LikedTracks` | backend/controllers/userController.js:172 | exactly the tracks the requester likes |
| `UserController.GetProfile` | backend/controllers/userController.js:7-37 | 404 exactly for a missing user; otherwise the serialized user, its played tracks populated with title, artist and cover, and the numbers of uploaded and liked tracks |
| `UserController.ProfilePlaysStored` | backend/controllers/userController.js:9-10 | each played track in the profile is a stored track the user listed, sent with that track's own title, artist and cover |
| `UserController.ProfileSkipsDeleted` | backend/controllers/userController.js:9-10 | a deleted track never appears among the profile's played tracks |
| `UserController.ProfileAgreesWithRecentlyPlayed` | backend/controllers/userController.js:9-10 | both handlers answer for the same users, and `getRecentlyPlayed` sends the first tracks of the profile's list, in the same order |
| `UserController.GetLikedMusic` | backend/controllers/userController.js:165-193 | a listing of the tracks the requester likes is sent with 200, and a refused query is forwarded to the error handler |
| `UserController.LikedNonPositivePage` | backend/controllers/userController.js:165-193 | for a page below one, `getLikedMusic` answers 500 |
| `UserController.LikedTrackListed` | backend/controllers/userController.js:165-193 | a track just liked is among the requester's liked tracks |
| `UserController.GetRecentlyPlayed` | backend/controllers/userController.js:196-224 | 404 exactly for a missing user; otherwise the first twenty of the populated tracks, in stored order |
| `UserController.Populated` | backend/controllers/userController.js:198-206 | `populate` gives only stored tracks, each listed, at most one per id |
| `UserController.PopulatedConcat` | backend/controllers/userController.js:198-206 | populating two lists one after the other is populating their concatenation |
| `UserController.PopulatedAllStored` | backend/controllers/userController.js:198-206 | while every listed track is stored, there is one track per id, in the list's order |
| `UserController.GoneIdSkipped` | backend/controllers/userController.js:198-206 | an id whose track is gone is dropped as if it had never been listed |
| `UserController.PlayExtendsShown` | backend/controllers/userController.js:198-215 | a play puts its track after the tracks already shown |
| `UserController.ShownWhileStored` | backend/controllers/userController.js:196-224 | while every played track is stored, the reply is the tracks of the first twenty stored ids |
| `UserController.DeletedTrackSkipped` | backend/controllers/userController.js:196-224 | a deleted track is not sent, and the reply is that of the list without its id |
| `UserController.RecentlyPlayedFrozenAtCap` | backend/controllers/userController.js:215 | once twenty stored tracks are shown, another play leaves the reply as it was |
| `UserController.PlayRecorded` | backend/controllers/musicController.js:381-384 | the next lookup finds the play recorded on the user |
| `UserController.NewPlayShownLast` | backend/controllers/userController.js:215 | below the cap, a stored track played for the first time is the last one sent |
| `UserController.GenresAssigned` | backend/controllers/userController.js:59-65 | a non-empty genre text is read as a comma list |
| `UserController.ProfileUpdated` | backend/controllers/userController.js:54-65 | only the names, bio and genres change; an undefined field is kept; a given name is trimmed; the genres follow their input |
| `UserController.ProfileUpdateIdempotent` | backend/controllers/userController.js:54-65 | sending the same update twice stores what sending it once stores |
| `UserController.GenresTextRoundTrip` | backend/controllers/userController.js:59-65 | genres sent as a comma join of clean names are stored as exactly those |
| `UserController.UpdateProfileOutcome` | backend/controllers/userController.js:40-77 | 404 for a missing user; a success stores and sends the updated user; a failure changes nothing |
| `UserController.UpdateProfileSucceedsIffBounded` | backend/controllers/userController.js:40-77 | an update succeeds exactly when the names and the bio stay within their bounds |
| `UserController.AssignNames` | backend/controllers/userController.js:54-55 | each defined name is assigned through `trim`, and `null` clears it |
| `UserController.AssignBioAndGenres` | backend/controllers/userController.js:56-65 | the bio and genres become those of `ProfileUpdated` |
| `UserController.UpdateProfile` | backend/controllers/userController.js:40-77 | the reply and the users are `UpdateProfileOutcome`'s |
| `UserController.UploadAvatarOutcome` | backend/controllers/userController.js:80-124 | 400 without a file and 404 without a user; otherwise the path becomes the avatar and is sent back |
| `UserController.DeleteAvatarOutcome` | backend/controllers/userController.js:127-162 | 404, then 400 when no avatar is set; otherwise the avatar is cleared |
| `UserController.AvatarUploadSucceeds` | backend/controllers/userController.js:80-124 | an upload for a stored user always succeeds and keeps the store consistent |
| `UserController.AvatarUploadThenDelete` | backend/controllers/userController.js:80-162 | upload then delete leaves the user without an avatar, and a second delete gets 400 |
| `UserController.AvatarDeleteOnce` | backend/controllers/userController.js:127-162 | deleting a set avatar succeeds, and deleting it again gets 400 |
| `UserController.UploadAvatar` | backend/controllers/userController.js:80-124 | the reply and the users are `UploadAvatarOutcome`'s |
| `UserController.DeleteAvatar` | backend/controllers/userController.js:127-162 | the reply and the users are `DeleteAvatarOutcome`'s |
| `UserController.ChangePasswordOutcome` | backend/controllers/userController.js:227-275 | the guards in order with their replies: 400 for a missing field, 400 for a short new password, 404 for a missing user, 400 for a wrong current password; then the hash of the new password is stored; a failure changes nothing |
| `UserController.ChangePasswordSucceedsIff` | backend/controllers/userController.js:227-275 | a change succeeds exactly when every guard passes |
| `UserController.NewPasswordLogsIn` | backend/controllers/userController.js:265-266 | after a change the new password logs in and a different old one is refused |
| `UserController.PasswordChangeStored` | backend/controllers/userController.js:265-267 | the store after an accepted change holds the hash of the new password |
| `UserController.LoginAfterChange` | backend/controllers/authController.js:126-181 | a verified user logs in with the password its hash was made from, and with no other |
| `UserController.ChangePassword` | backend/controllers/userController.js:227-275 | the reply and the users are `ChangePasswordOutcome`'s |
| `UserController.DeleteAccountOutcome` | backend/controllers/userController.js:278-344 | 400 without a password; a success removes exactly that user; a failure changes nothing |
| `UserController.DeletedAccountIsGone` | backend/controllers/userController.js:278-344 | afterwards the profile, the tracks and the login are gone, and the others' tracks are kept |
| `UserController.AccountRemoved` | backend/controllers/userController.js:335 | removing a user keeps the store consistent and leaves neither its id nor its email |
| `UserController.NoTracksLeft` | backend/controllers/userController.js:332 | after `deleteMany`, the user has no tracks |
| `UserController.DeleteAccount` | backend/controllers/userController.js:278-344 | the reply, the users and the tracks are `DeleteAccountOutcome`'s |
| `Upload.LastIndexOf` | backend/middleware/upload.js:23 | the last position of the character, or None exactly when it is absent |
| `Upload.BaseName` | backend/middleware/upload.js:23 | the last path segment: no slash, and a suffix of the path |
| `Upload.ExtName` | backend/middleware/upload.js:23 | `path.extname` is "" or a dot and a dot-free, slash-free suffix of the name |
| `Upload.LastIndexOfUnique` | backend/middleware/upload.js:23 | the last occurrence is the one the character does not follow |
| `Upload.ExtNameOfStemAndExtension` | backend/middleware/upload.js:23 | `stem.e` has the extension `.e` |
| `Upload.ExtNameWithoutDot` | backend/middleware/upload.js:23 | a name without a dot has no extension |
| `Upload.ExtNameOfLower` | backend/middleware/upload.js:41 | lower-casing and taking the extension commute |
| `Upload.FileFilter` | backend/middleware/upload.js:39-62 | a file passes exactly when its lower-cased extension and its mimetype both contain an allowed type name; otherwise the filter's message |
| `Upload.FilterIgnoresNameCase` | backend/middleware/upload.js:41 | the case of the original name does not matter to a filter |
| `Upload.AllowedExtensionAccepted` | backend/middleware/upload.js:39-62 | a name with an allowed extension, in any case, sent with a matching mimetype passes |
| `Upload.Mp3Accepted` | backend/middleware/upload.js:39-49 | `.mp3` or `.MP3` sent as `audio/mp3` passes the music filter |
| `Upload.MpegMimetypeRejected` | backend/middleware/upload.js:40-47 | `audio/mpeg` is refused whatever the name |
| `Upload.UniqueSuffix` | backend/middleware/upload.js:22 | the suffix has no dot and no slash |
| `Upload.StoredFilename` | backend/middleware/upload.js:21-24 | the stored name starts with the field name and the suffix and ends with the original extension |
| `Upload.StoredFilenameKeepsExtension` | backend/middleware/upload.js:21-24 | the stored name has the original name's extension |
| `Upload.MusicSizeLimit` | backend/middleware/upload.js:68 | the limit is never zero, and is 50000000 when unset |
| `Upload.SizeLimitFromEnvironment` | backend/middleware/upload.js:68 | a positive decimal size overrides the default exactly |
| `Upload.Receive` | backend/middleware/upload.js:65-80 | a file is stored exactly when the filter accepts it and it is within the limit, under the stored name |
| `Upload.RefusedFileIs500` | backend/middleware/upload.js:47 | a refused file reaches the error handler as 500 with the filter's or multer's message |
| `AuthStorage.WithTokens` | admin/src/state/storage.ts:36-40 | both tokens are set and the store is authenticated, with the user kept |
| `AuthStorage.WithUser` | admin/src/state/storage.ts:42 | only the user changes |
| `AuthStorage.LoggedOut` | admin/src/state/storage.ts:44-49 | every field is back to its initial value |
| `AuthStorage.Refreshed` | admin/src/state/storage.ts:52-77 | true exactly with a refresh token and a successful answer; no token, or a failed answer, changes nothing; a throw logs out |
| `AuthStorage.StepKeepsCoherence` | admin/src/state/storage.ts:31-77 | each action keeps the store holding both tokens or neither, as its authentication says |
| `AuthStorage.RunKeepsCoherence` | admin/src/state/storage.ts:31-77 | every sequence of actions keeps that coherence, given answers that carry tokens |
| `AuthStorage.BackendAnswer` | backend/controllers/authController.js:305-326 | the backend's answer never carries `access_token` or `refresh_token`, and succeeds exactly when the gate admits |
| `AuthStorage.RefreshRefusedByGate` | backend/routes/auth.js:13 | with no `Authorization` header the gate refuses, and the refresh resolves false with nothing changed |
| `AuthStorage.AdmittedRefreshDropsTokens` | admin/src/state/storage.ts:64-69 | an admitted refresh reports success, drops both tokens and breaks coherence |
| `AuthStorage.AuthenticatedOnlyAfterSetTokens` | admin/src/state/storage.ts:36-49 | an authenticated store was authenticated before, or went through `setTokens`, with no `logout` since |
| `AuthStorage.LogoutForgetsHistory` | admin/src/state/storage.ts:44-49 | after `logout` the store is in its initial state, whatever came before |
| `AuthStorage.RefreshWithoutTokenIsIdle` | admin/src/state/storage.ts:53-54 | refreshes without a refresh token change nothing |
| `AuthStorage.Partialize` | admin/src/state/storage.ts:82-87 | the four fields are persisted as they are |
| `AuthStorage.Merge` | admin/src/state/storage.ts:79-88 | rehydration restores exactly the persisted fields |
| `AuthStorage.RehydrateRestores` | admin/src/state/storage.ts:79-88 | reloading restores the session, whatever state the fresh store was in |
| `AuthStorage.AuthStore.constructor` | admin/src/state/storage.ts:31-34 | a new store is in the initial state |
| `AuthStorage.AuthStore.SetTokens` | admin/src/state/storage.ts:36-40 | the state becomes `WithTokens` of the old one |
| `AuthStorage.AuthStore.SetUser` | admin/src/state/storage.ts:42 | the state becomes `WithUser` of the old one |
| `AuthStorage.AuthStore.Logout` | admin/src/state/storage.ts:44-49 | the state becomes `LoggedOut` of the old one |
| `AuthStorage.AuthStore.RefreshAccessToken` | admin/src/state/storage.ts:52-77 | the state and the result are `Refreshed`'s, and the old refresh token is posted exactly when there is one |
| `AuthStorage.AuthStore.Partialized` | admin/src/state/storage.ts:82-87 | what is persisted is `Partialize` of the state |
| `AuthStorage.AuthStore.Rehydrate` | admin/src/state/storage.ts:79-88 | the state becomes `Merge` of the old one with what is persisted |

## Left out

- Search filters: `getAllMusic`'s `search`, `genre` and `artist` filters (`$text` search and case-insensitive regular expressions). The listing is modelled without them.
- `populate` of `uploadedBy`: the uploader's username is not added to the tracks sent by the listings, `uploadMusic` and `getMusicById`. The populate of played tracks in `getRecentlyPlayed` and `getProfile` is modelled.
- `MusicController.GetMusicById`: the populate of `likes` with the likers' usernames is not modelled; the track is sent with the liker ids.
- `UserController.GetProfile`: the populate of `preferences.playlists` is not modelled, because the playlist collection is not part of the store. No handler writes `preferences.playlists`, which starts empty, so the list sent is empty either way.
- `MusicController.PageListing`: a `page` or `limit` that `parseInt` reads as NaN gives no behaviour. What the driver and server do with a NaN skip or limit is outside the handlers.
- `MusicController.GetAllMusic`, `MusicController.GetMyMusic`, `UserController.GetLikedMusic`: no behaviour for a NaN `page` or `limit`, as for `PageListing`.
- `MusicController.NegativeSkipError`: the server's wording for a negative skip is taken as that of MongoDB's `find` command validation.
- `AuthController.IssueOtp`: as written, the code generator is not wired up. `authController.js` calls `OTPGenerator.generate()`, but `otpGenerator.js` exports `generateOTP` as an ES function, so the call throws a `TypeError`. In `register` the account is already stored by `User.create` and the silent catch leaves it without a code and the request unanswered; in `resendOTP` nothing changes and nothing is sent. As written no account could be verified. The model issues the code the handlers evidently mean: `generateOTP()` with its default length of six and `getExpiryTime(10)`.
- File system: the unlinking of stored files on failed uploads and deletes, `existsSync`, and the creation of the upload directories. Only the name a file is stored under is modelled.
- `uploadAvatar`'s unlink in its catch block.
- `Text.Lower`: only ASCII letters are lower-cased. `toLowerCase` also maps other Unicode letters.
- String lengths count `char`s. JavaScript counts UTF-16 code units, which differ only outside the basic plane.
- `Text.ParseInt`: reads an unbounded integer. `parseInt` produces a double and loses precision above 2^53.
- bcrypt: salts and cost factors are not modelled. A credential is either plaintext or the hash of another credential.
- JWT: signatures and expiry are left out. Verification is a map from token to id, and token errors are errors the handler classifies.
- Mail delivery: a boolean parameter.
- Concurrency: requests run one at a time, so interleaved requests (two registrations racing on the unique index) are not modelled.
- Logging: the `console.log` of the silent catch blocks is left out; those requests are `Unanswered`.
- A malformed id: `findById` with one throws a `CastError`. The model takes ids as numbers and covers that error only in `ErrorHandler.CastErrorIs400`.
- `duration`: no handler sets it. The model keeps it as an optional field, and `MusicModel.UnsetDuration` states what the virtual shows.
- `Store.PutShape`: `save` replaces the document with the same id. In a consistent store there is exactly one.
- `uploadMultiple`: it is configured without a filter and is used by no route in the core. Only its limit, the same as the music limit, is modelled.
- `Upload.ExtName`: does not model trailing slashes, which `path.extname` ignores. Multer's original names carry none.
- Validation scope: Mongoose validates only modified paths on an existing document. The model validates the whole document, which gives the same answer for documents that were valid when stored.
- Handlers not modelled: `authController.refreshToken` is modelled only through `AuthStorage.BackendAnswer`, and the `logout` route only answers a message.
- Session storage: the JSON round trip turns `undefined` into a missing field. The model uses `Option`, which cannot tell `undefined` from `null`.
- The `fetch` call: represented by its answer. Network errors and JSON parse errors are both `Threw`.
- Playlist routes: the playlist controller is not part of this model. Only the document methods are modelled.

/** The track handlers of backend/controllers/musicController.js.

    Each handler that writes is a method on the store, proved against a function
    that gives its reply and the collections after it. A reply is sent with
    `res.status(...).json(...)`, forwarded to the error handler with
    `next(error)`, or never sent when a catch block only logs. The requester is
    the id `protect` put on `req.user`. Files on disk, the usernames
    `populate` adds (of the uploader, and of the likers in `getMusicById`) and
    the timestamps are not part of this model; the store
    keeps documents in the order they were created, so
    `sort({ createdAt: -1 })` is that order reversed. */
module MusicController {
  import opened Wrappers
  import opened Text
  import opened ListSet
  import opened MusicModel
  import opened Store
  import ErrorHandler

  const TrackNotFound := "Utwór nie znaleziony"
  const NoAccess := "Brak dostępu do tego utworu"
  const NotAllowedToModify := "Brak uprawnień do modyfikacji tego utworu"
  const NotAllowedToDelete := "Brak uprawnień do usunięcia tego utworu"
  const FileRequired := "Plik jest wymagany"
  const TitleAndArtistRequired := "Tytuł i artysta są wymagani"
  const TrackUploaded := "Utwór został przesłany pomyślnie"
  const ImageRequired := "Plik obrazu jest wymagany"
  const CoverUploaded := "Okładka została przesłana pomyślnie"
  const TrackUpdated := "Utwór został zaktualizowany"
  const TrackDeleted := "Utwór został usunięty"
  const AlreadyLiked := "Już polubiłeś ten utwór"
  const TrackLiked := "Utwór został polubiony"
  const LikeWithdrawn := "Polubienie zostało cofnięte"
  const TrackPlayed := "Utwór odtworzony"

  /** The `TypeError` thrown by reading `req.user._id` on a route without `protect`. */
  const UserUndefined := "Cannot read properties of undefined (reading '_id')"

  /** What multer leaves on `req.file`: the stored file's name, its size and type. */
  datatype UploadedFile = UploadedFile(filename: string, size: nat, mimetype: string)

  // ---------------------------------------------------------------- listings

  /** The `pagination` object. A number JSON cannot carry (NaN, Infinity) is sent as `null`. */
  datatype Pagination = Pagination(currentPage: Option<int>, totalPages: Option<int>, totalItems: nat, itemsPerPage: Option<int>)

  datatype Listing = Listing(tracks: seq<MusicDoc>, pagination: Pagination)

  /** A query parameter read with `parseInt`, with the number used when it is absent. */
  function QueryInt(q: Option<string>, default: nat): (r: Option<int>)
    ensures q.None? ==> r == Some(default)
  {
    match q
    case None => Some(default)
    case Some(s) => ParseInt(s)
  }

  /** `Math.ceil(total / limit)`: None for a zero limit (NaN or Infinity). */
  function CeilDiv(total: nat, limit: int): (r: Option<int>)
    ensures r.None? <==> limit == 0
    ensures limit > 0 ==> r.value >= 0 && r.value * limit >= total && (r.value == 0 || (r.value - 1) * limit < total)
    ensures limit < 0 ==> r.value <= 0
  {
    if limit == 0 then None
    else if limit > 0 then
      var q := (total + limit - 1) / limit;
      assert q * limit + (total + limit - 1) % limit == total + limit - 1;
      Some(q)
    else Some(-(total / (-limit)))
  }

  function PaginationOf(page: Option<string>, limit: Option<string>, total: nat): Pagination {
    var l := QueryInt(limit, 20);
    Pagination(QueryInt(page, 1), if l.Some? then CeilDiv(total, l.value) else None, total, l)
  }

  /** Without `page` and `limit` a listing is page 1 of pages of twenty. */
  lemma DefaultPagination(total: nat)
    ensures PaginationOf(None, None, total) == Pagination(Some(1), Some((total + 19) / 20), total, Some(20))
  {
  }

  function Abs(x: int): nat {
    if x < 0 then -x else x
  }

  /** `skip(skip).limit(limit)` as the driver runs it: a zero limit sets no
      limit, and a negative one asks for its absolute value in a single batch.
      The result is the entries from position `skip` on, as many as the limit
      allows. */
  function Slice<T>(items: seq<T>, skip: nat, limit: int): (w: seq<T>)
    ensures |w| == if skip >= |items| then 0
                   else if limit == 0 || |items| - skip <= Abs(limit) then |items| - skip
                   else Abs(limit)
    ensures forall k :: 0 <= k < |w| ==> skip + k < |items| && w[k] == items[skip + k]
  {
    if skip >= |items| then []
    else if limit == 0 || |items| - skip <= Abs(limit) then items[skip..]
    else items[skip..skip + Abs(limit)]
  }

  /** `skip((page - 1) * limit).limit(limit)` for a page and a limit of at least one. */
  function Window<T>(items: seq<T>, page: int, limit: int): (w: seq<T>)
    requires page >= 1 && limit >= 1
    ensures |w| <= limit
    ensures forall k :: 0 <= k < |w| ==> 0 <= (page - 1) * limit + k < |items| && w[k] == items[(page - 1) * limit + k]
  {
    Slice(items, Skip(page, limit), limit)
  }

  /** Pages 1 to `k`, one after the other. */
  function PagesUpTo<T>(items: seq<T>, limit: int, k: nat): seq<T>
    requires limit >= 1
  {
    if k == 0 then [] else PagesUpTo(items, limit, k - 1) + Window(items, k, limit)
  }

  lemma {:induction false} PagesUpToPrefix<T>(items: seq<T>, limit: int, k: nat)
    requires limit >= 1
    ensures PagesUpTo(items, limit, k) == items[..if k * limit <= |items| then k * limit else |items|]
  {
    if k > 0 {
      PagesUpToPrefix(items, limit, k - 1);
      var skip := Skip(k, limit);
      assert skip == (k - 1) * limit && skip + limit == k * limit;
      PagesStep(items, limit, k);
    }
  }

  /** `x` cut at the length `n`. */
  function AtMost(x: int, n: nat): int {
    if x <= n then x else n
  }

  /** Page `k` continues pages 1 to `k - 1`. */
  lemma PagesStep<T>(items: seq<T>, limit: int, k: nat)
    requires limit >= 1 && k >= 1
    requires PagesUpTo(items, limit, k - 1) == items[..AtMost(Skip(k, limit), |items|)]
    ensures PagesUpTo(items, limit, k) == items[..AtMost(Skip(k, limit) + limit, |items|)]
  {
    var a := AtMost(Skip(k, limit), |items|);
    var b := AtMost(Skip(k, limit) + limit, |items|);
    WindowIsRange(items, k, limit);
    assert items[..a] + items[a..b] == items[..b];
  }

  /** A window is the stretch of the list from the skip on, cut at the list's end. */
  lemma WindowIsRange<T>(items: seq<T>, page: int, limit: int)
    requires page >= 1 && limit >= 1
    ensures var skip := Skip(page, limit);
            var a := if skip <= |items| then skip else |items|;
            var b := if skip + limit <= |items| then skip + limit else |items|;
            Window(items, page, limit) == items[a..b]
  {
    var skip := Skip(page, limit);
    assert Window(items, page, limit) == Slice(items, skip, limit);
  }

  /** The pages 1 to `totalPages` are the whole list, in order, each entry once;
      every page after them is empty. */
  lemma PagesCoverTheList<T>(items: seq<T>, limit: int, page: int)
    requires limit >= 1 && page >= 1
    ensures var n := CeilDiv(|items|, limit).value;
            && PagesUpTo(items, limit, n) == items
            && (page > n ==> Window(items, page, limit) == [])
  {
    var n := CeilDiv(|items|, limit).value;
    PagesUpToPrefix(items, limit, n);
    if page > n {
      MulAtLeast(page - 1, n, limit);
    }
  }

  lemma MulAtLeast(a: int, b: int, c: int)
    requires a >= b && c >= 0
    ensures a * c >= b * c
  {
    assert a * c == b * c + (a - b) * c;
  }

  /** `sort({ createdAt: -1 })` on documents kept in creation order. */
  function NewestFirst(s: seq<MusicDoc>): (r: seq<MusicDoc>)
    ensures |r| == |s|
    ensures forall i :: 0 <= i < |s| ==> r[i] == s[|s| - 1 - i]
  {
    seq(|s|, i requires 0 <= i < |s| => s[|s| - 1 - i])
  }

  /** What `find(...).sort(...).skip(...).limit(...)` gives for the page and
      limit values `parseInt` read. */
  datatype PageResult =
    | Listed(listing: Listing)
    /** `(page - 1) * limit` is negative, and the server refuses the query. */
    | NegativeSkip(skip: int)
    /** A value read as NaN; what the query does with a NaN skip or limit is
        not part of this model. */
    | NotANumber

  /** `(page - 1) * limit`: negative exactly when the page is below one and the
      limit positive, or the page above one and the limit negative. */
  function Skip(page: int, limit: int): (skip: int)
    ensures skip < 0 <==> (page < 1 && limit > 0) || (page > 1 && limit < 0)
    ensures page >= 1 && limit >= 0 ==> skip >= 0
    ensures limit == 0 || page == 1 ==> skip == 0
    ensures page <= 1 && limit < 0 ==> skip == (1 - page) * -limit
  {
    ProductSign(page - 1, limit);
    (page - 1) * limit
  }

  lemma ProductSign(a: int, b: int)
    ensures a * b < 0 <==> (a < 0 && b > 0) || (a > 0 && b < 0)
    ensures a * b == 0 <==> a == 0 || b == 0
  {
    if a < 0 && b > 0 {
      MulAtLeast(-a, 1, b);
    } else if a > 0 && b < 0 {
      MulAtLeast(a, 1, -b);
    } else if a > 0 && b > 0 {
      MulAtLeast(a, 1, b);
    } else if a < 0 && b < 0 {
      MulAtLeast(-a, 1, -b);
      assert a * b == (-a) * (-b);
    }
  }

  /** The refusal of a negative skip, as the server words it. */
  function NegativeSkipError(skip: int): ErrorHandler.JsError {
    ErrorHandler.JsError("MongoServerError", "BSON field 'skip' value must be >= 0, actual value '" + IntToString(skip) + "'",
                         None, None, [], [])
  }

  /** The matching tracks, newest first, cut at `(page - 1) * limit` and
      `limit`, with the `countDocuments` total. */
  function PageListing(matching: seq<MusicDoc>, total: nat, page: Option<string>, limit: Option<string>): (r: PageResult)
    ensures r.NotANumber? <==> QueryInt(page, 1).None? || QueryInt(limit, 20).None?
    ensures r.NegativeSkip? <==> QueryInt(page, 1).Some? && QueryInt(limit, 20).Some?
                                 && Skip(QueryInt(page, 1).value, QueryInt(limit, 20).value) < 0
    ensures r.NegativeSkip? ==> r.skip == Skip(QueryInt(page, 1).value, QueryInt(limit, 20).value)
    ensures r.Listed? ==> (forall t :: t in r.listing.tracks ==> t in matching)
                          && r.listing.pagination == PaginationOf(page, limit, total)
  {
    var p := QueryInt(page, 1);
    var l := QueryInt(limit, 20);
    if p.None? || l.None? then NotANumber
    else
      var skip := Skip(p.value, l.value);
      if skip < 0 then NegativeSkip(skip)
      else Listed(Listing(Slice(NewestFirst(matching), skip, l.value), PaginationOf(page, limit, total)))
  }

  /** `limit=0` sets no limit: every matching track is listed, newest first,
      whatever the page, and `Math.ceil(total / 0)` is sent as `null`. */
  lemma ZeroLimitListsAll(matching: seq<MusicDoc>, total: nat, pageText: Option<string>, limitText: Option<string>)
    requires QueryInt(pageText, 1).Some? && QueryInt(limitText, 20) == Some(0)
    ensures PageListing(matching, total, pageText, limitText)
            == Listed(Listing(NewestFirst(matching), Pagination(QueryInt(pageText, 1), None, total, Some(0))))
  {
    var newest := NewestFirst(matching);
    assert Slice(newest, 0, 0) == newest;
  }

  /** A page below one with a positive limit makes the skip negative. */
  lemma NonPositivePageRefused(matching: seq<MusicDoc>, total: nat, pageText: Option<string>, limitText: Option<string>, page: int, limit: int)
    requires QueryInt(pageText, 1) == Some(page) && QueryInt(limitText, 20) == Some(limit)
    requires page <= 0 && limit >= 1
    ensures PageListing(matching, total, pageText, limitText) == NegativeSkip(Skip(page, limit))
  {
  }

  /** A negative limit: past page one the skip is negative; up to page one at
      most `-limit` tracks are listed, from the skip on, which is
      `(1 - page) * -limit` (`Skip`). */
  lemma NegativeLimitListing(matching: seq<MusicDoc>, total: nat, pageText: Option<string>, limitText: Option<string>, page: int, limit: int)
    requires QueryInt(pageText, 1) == Some(page) && QueryInt(limitText, 20) == Some(limit)
    requires limit < 0
    ensures var r := PageListing(matching, total, pageText, limitText);
            && (r.NegativeSkip? <==> page >= 2)
            && (r.Listed? ==> |r.listing.tracks| <= -limit
                              && forall k :: 0 <= k < |r.listing.tracks| ==>
                                   Skip(page, limit) + k < |matching|
                                   && r.listing.tracks[k] == NewestFirst(matching)[Skip(page, limit) + k])
  {
    var r := PageListing(matching, total, pageText, limitText);
    assert r.NegativeSkip? <==> page >= 2 by {
      assert r.NegativeSkip? <==> Skip(page, limit) < 0;
    }
    if r.Listed? {
      ListedIsSlice(matching, total, pageText, limitText, page, limit);
      SliceWithin(NewestFirst(matching), Skip(page, limit), limit, r.listing.tracks);
    }
  }

  lemma SliceWithin(items: seq<MusicDoc>, skip: nat, limit: int, w: seq<MusicDoc>)
    requires limit < 0 && w == Slice(items, skip, limit)
    ensures |w| <= -limit && forall k :: 0 <= k < |w| ==> skip + k < |items| && w[k] == items[skip + k]
  {
  }

  /** With a skip that is not negative, the listing is the slice from the skip on. */
  lemma ListedIsSlice(matching: seq<MusicDoc>, total: nat, pageText: Option<string>, limitText: Option<string>, page: int, limit: int)
    requires QueryInt(pageText, 1) == Some(page) && QueryInt(limitText, 20) == Some(limit)
    requires Skip(page, limit) >= 0
    ensures PageListing(matching, total, pageText, limitText)
            == Listed(Listing(Slice(NewestFirst(matching), Skip(page, limit), limit), PaginationOf(pageText, limitText, total)))
  {
  }

  /** `find({ isPublic: true })` in store order. */
  function PublicTracks(music: seq<MusicDoc>): (r: seq<MusicDoc>)
    ensures forall t :: t in r <==> t in music && t.isPublic
  {
    Without(music, (d: MusicDoc) => !d.isPublic)
  }

  /** `find({ uploadedBy: requester })` in store order. */
  function OwnTracks(music: seq<MusicDoc>, requester: ObjectId): (r: seq<MusicDoc>)
    ensures forall t :: t in r <==> t in music && t.uploadedBy == requester
  {
    Without(music, (d: MusicDoc) => d.uploadedBy != requester)
  }

  /** `getAllMusic` without `search`, `genre` or `artist`: the public tracks.
      Its catch block only logs, so a refused query leaves the request
      unanswered. None when a query value is NaN. */
  function GetAllMusic(music: seq<MusicDoc>, page: Option<string>, limit: Option<string>): (r: Option<Reply<Listing>>)
    ensures var listed := PageListing(PublicTracks(music), |PublicTracks(music)|, page, limit);
            && (r.None? <==> listed.NotANumber?)
            && (listed.Listed? ==> r == Some(Success(200, "", listed.listing)))
            && (listed.NegativeSkip? ==> r == Some(Unanswered))
  {
    CountIsFilteredLength(music, (d: MusicDoc) => d.isPublic, (d: MusicDoc) => !d.isPublic);
    ListingReply(PageListing(PublicTracks(music), Count(music, (d: MusicDoc) => d.isPublic), page, limit), false)
  }

  /** The reply of a listing handler: the listing, or for a refused query
      `next(error)` when `forwards`, else nothing. */
  function ListingReply(listed: PageResult, forwards: bool): Option<Reply<Listing>> {
    match listed
    case NotANumber => None
    case NegativeSkip(skip) => Some(if forwards then ErrorHandler.Forward(NegativeSkipError(skip)) else Unanswered)
    case Listed(l) => Some(Success(200, "", l))
  }

  /** `getMyMusic`: the requester's own tracks, public or not; a refused query
      reaches the error handler. None when a query value is NaN. */
  function GetMyMusic(music: seq<MusicDoc>, requester: ObjectId, page: Option<string>, limit: Option<string>): (r: Option<Reply<Listing>>)
    ensures var listed := PageListing(OwnTracks(music, requester), |OwnTracks(music, requester)|, page, limit);
            && (r.None? <==> listed.NotANumber?)
            && (listed.Listed? ==> r == Some(Success(200, "", listed.listing)))
            && (listed.NegativeSkip? ==> r == Some(ErrorHandler.Forward(NegativeSkipError(listed.skip))))
  {
    CountIsFilteredLength(music, (d: MusicDoc) => d.uploadedBy == requester, (d: MusicDoc) => d.uploadedBy != requester);
    ListingReply(PageListing(OwnTracks(music, requester), Count(music, (d: MusicDoc) => d.uploadedBy == requester), page, limit), true)
  }

  /** A refused query that reaches the error handler is answered 500 with the
      server's message. */
  lemma NegativeSkipIs500(skip: int)
    ensures ErrorHandler.Forward<Listing>(NegativeSkipError(skip))
            == Failure(500, "BSON field 'skip' value must be >= 0, actual value '" + IntToString(skip) + "'")
  {
  }

  /** A page below one with a positive limit: `getAllMusic` sends nothing,
      `getMyMusic` answers 500. */
  lemma NonPositivePageReplies(music: seq<MusicDoc>, requester: ObjectId, pageText: Option<string>, limitText: Option<string>, page: int, limit: int)
    requires QueryInt(pageText, 1) == Some(page) && QueryInt(limitText, 20) == Some(limit)
    requires page <= 0 && limit >= 1
    ensures GetAllMusic(music, pageText, limitText) == Some(Unanswered)
    ensures var r := GetMyMusic(music, requester, pageText, limitText);
            r.Some? && r.value.Failure? && r.value.status == 500
  {
    NonPositivePageRefused(PublicTracks(music), |PublicTracks(music)|, pageText, limitText, page, limit);
    var own := OwnTracks(music, requester);
    NonPositivePageRefused(own, |own|, pageText, limitText, page, limit);
    NegativeSkipIs500(Skip(page, limit));
  }

  /** `limit=0`: `getAllMusic` sends every public track, newest first. */
  lemma ZeroLimitSendsEveryPublicTrack(music: seq<MusicDoc>, pageText: Option<string>, limitText: Option<string>)
    requires QueryInt(pageText, 1).Some? && QueryInt(limitText, 20) == Some(0)
    ensures var r := GetAllMusic(music, pageText, limitText);
            && r.Some? && r.value.Success?
            && r.value.data.tracks == NewestFirst(PublicTracks(music))
            && r.value.data.pagination.totalPages.None?
  {
    var pub := PublicTracks(music);
    ZeroLimitListsAll(pub, |pub|, pageText, limitText);
  }

  /** `countDocuments(filter)` counts exactly the documents `find(filter)` lists. */
  lemma {:induction false} CountIsFilteredLength<T(!new)>(s: seq<T>, p: T -> bool, q: T -> bool)
    requires forall x :: q(x) == !p(x)
    ensures Count(s, p) == |Without(s, q)|
  {
    if |s| > 0 {
      CountIsFilteredLength(s[1..], p, q);
    }
  }

  /** The entry at position `(page - 1) * limit + k`, for `k < limit`, is
      entry `k` of page `page`, and that page is within `totalPages`. */
  lemma EntryOnItsPage<T>(items: seq<T>, page: int, limit: int, k: nat)
    requires page >= 1 && limit >= 1 && k < limit && (page - 1) * limit + k < |items|
    ensures var w := Window(items, page, limit);
            && k < |w| && w[k] == items[(page - 1) * limit + k]
            && page <= CeilDiv(|items|, limit).value
  {
    var n := CeilDiv(|items|, limit).value;
    if page > n {
      MulAtLeast(page - 1, n, limit);
      assert false;
    }
  }

  /** Every public track is listed, newest first: the one at position
      `i == (page - 1) * limit + k` is entry `k` of page `page`, and that page is
      within `totalPages`. `pageText` and `limitText` are any query values
      `parseInt` reads as those numbers, such as their decimal forms
      (`ParseIntOfNatToString`). */
  lemma PublicTrackListedOnItsPage(music: seq<MusicDoc>, page: int, limit: int, k: nat, i: nat,
                                   pageText: Option<string>, limitText: Option<string>)
    requires page >= 1 && limit >= 1 && k < limit && i == (page - 1) * limit + k && i < |PublicTracks(music)|
    requires QueryInt(pageText, 1) == Some(page) && QueryInt(limitText, 20) == Some(limit)
    ensures var r := GetAllMusic(music, pageText, limitText);
            && r.Some? && r.value.Success? && k < |r.value.data.tracks|
            && r.value.data.tracks[k] == NewestFirst(PublicTracks(music))[i]
            && r.value.data.pagination.totalPages.Some? && page <= r.value.data.pagination.totalPages.value
  {
    var pub := PublicTracks(music);
    AllMusicOfPage(music, pageText, limitText, page, limit);
    EntryOnItsPage(NewestFirst(pub), page, limit, k);
  }

  lemma AllMusicOfPage(music: seq<MusicDoc>, pageText: Option<string>, limitText: Option<string>, page: int, limit: int)
    requires page >= 1 && limit >= 1
    requires QueryInt(pageText, 1) == Some(page) && QueryInt(limitText, 20) == Some(limit)
    ensures var pub := PublicTracks(music);
            GetAllMusic(music, pageText, limitText)
            == Some(Success(200, "", Listing(Window(NewestFirst(pub), page, limit), Pagination(Some(page), CeilDiv(|pub|, limit), |pub|, Some(limit)))))
  {
    var pub := PublicTracks(music);
    ListingOfPage(pub, |pub|, pageText, limitText, page, limit);
  }

  lemma ListingOfPage(matching: seq<MusicDoc>, total: nat, pageText: Option<string>, limitText: Option<string>, page: int, limit: int)
    requires page >= 1 && limit >= 1
    requires QueryInt(pageText, 1) == Some(page) && QueryInt(limitText, 20) == Some(limit)
    ensures PageListing(matching, total, pageText, limitText)
            == Listed(Listing(Window(NewestFirst(matching), page, limit), Pagination(Some(page), CeilDiv(total, limit), total, Some(limit))))
  {
    assert Window(NewestFirst(matching), page, limit) == Slice(NewestFirst(matching), Skip(page, limit), limit);
  }

  // ---------------------------------------------------------------- one track

  /** `getMusicById(requester)`. The route has no `protect`, so in the running
      server `requester` is always None. */
  function GetMusicById(music: seq<MusicDoc>, id: ObjectId, requester: Option<ObjectId>): (r: Reply<MusicDoc>)
    ensures r.Success? ==> r.data in music && r.data.id == id && (r.data.isPublic || requester == Some(r.data.uploadedBy))
    ensures r == Failure(404, TrackNotFound) <==> FindMusicById(music, id).None?
    ensures FindMusicById(music, id).Some? ==>
              var m := FindMusicById(music, id).value;
              && (m.isPublic || requester == Some(m.uploadedBy) ==> r == Success(200, "", m))
              && (!m.isPublic && requester.Some? && requester.value != m.uploadedBy ==> r == Failure(403, NoAccess))
              && (!m.isPublic && requester.None? ==> r == Failure(500, UserUndefined))
    ensures r.Unanswered? == false
  {
    match FindMusicById(music, id)
    case None => Failure(404, TrackNotFound)
    case Some(m) =>
      if m.isPublic then Success(200, "", m)
      else if requester.None? then ErrorHandler.Forward(ErrorHandler.JsError("TypeError", UserUndefined, None, None, [], []))
      else if m.uploadedBy != requester.value then Failure(403, NoAccess)
      else Success(200, "", m)
  }

  /** As routed, a public track is returned and a private one, even to its
      owner, fails with 500 from the `TypeError`. */
  lemma GetMusicByIdAsRouted(music: seq<MusicDoc>, m: MusicDoc)
    requires MusicConsistent(music, m.id + 1) && m in music
    ensures m.isPublic ==> GetMusicById(music, m.id, None) == Success(200, "", m)
    ensures !m.isPublic ==> GetMusicById(music, m.id, None) == Failure(500, UserUndefined)
  {
    FirstOfUnique(music, (d: MusicDoc) => d.id == m.id, m);
  }

  // ---------------------------------------------------------------- saving

  /** `await doc.save()` inside a handler: the reply `success` once the track is
      written. A refused save is only logged when `silent`; otherwise the error
      reaches the error handler, which answers 400 with the validation
      messages (RefusedSaveAnswered). */
  function Saved<T>(music: seq<MusicDoc>, d: MusicDoc, success: Reply<T>, silent: bool): (r: (Reply<T>, seq<MusicDoc>))
    ensures SchemaValid(d) ==> r == (success, Put(music, MusicId, d))
    ensures !SchemaValid(d) ==> r.1 == music && (r.0.Unanswered? <==> silent)
  {
    if SchemaValid(d) then (success, Put(music, MusicId, d))
    else if silent then (Unanswered, music)
    else (Failure(400, Join(ErrorsAlong(d, ValidatedPaths), ", ")), music)
  }

  /** The error a refused save throws, passed to `next`, gets the reply `Saved`
      gives. */
  lemma RefusedSaveAnswered<T>(music: seq<MusicDoc>, d: MusicDoc, success: Reply<T>)
    requires !SchemaValid(d)
    ensures SaveMusicOutcome(music, d).0 == Some(ValidationFailed(ValidationErrors(d)))
    ensures ErrorHandler.Forward<T>(Thrown(SaveMusicOutcome(music, d).0.value)) == Saved(music, d, success, false).0
  {
    RefusedSaveIs400(ValidationFailed(ValidationErrors(d)));
  }

  /** The save of a handler's in-memory track. */
  method SaveTrack<T>(db: Database, m: Music, success: Reply<T>, silent: bool) returns (reply: Reply<T>)
    requires db.Valid() && m.id < db.nextId
    modifies db
    ensures db.Valid() && db.users == old(db.users) && db.nextId == old(db.nextId)
    ensures (reply, db.music) == Saved(old(db.music), m.Doc(), success, silent)
  {
    var err := db.SaveMusic(m);
    if err.None? {
      reply := success;
    } else if silent {
      reply := Unanswered;
    } else {
      RefusedSaveAnswered(old(db.music), m.Doc(), success);
      reply := ErrorHandler.Forward(Thrown(err.value));
    }
  }

  // ---------------------------------------------------------------- upload

  /** The track `Music.create` builds for an upload with the given fields. */
  function UploadedTrack(id: ObjectId, uploader: ObjectId, file: UploadedFile, title: string, artist: string,
                         album: Option<string>, genre: Option<string>, tags: Option<string>, baseUrl: string): (d: MusicDoc)
    ensures d.id == id && d.uploadedBy == uploader && d.isPublic && d.likes == [] && d.playCount == 0
    ensures d.filePath == baseUrl + "/uploads/music/" + file.filename
    ensures d.tags == if Present(tags) then CommaList(tags.value) else []
    ensures forall t :: t in d.tags ==> CleanItem(t)
  {
    var items := if Present(tags) then CommaList(tags.value) else [];
    TrimAllOfClean(items);
    NewMusicDoc(id, title, artist, album, genre, baseUrl + "/uploads/music/" + file.filename,
                file.size, file.mimetype, uploader, items)
  }

  /** `uploadMusic`: the reply and the tracks after it; `id` is the id the new
      document gets. A track that fails validation is only logged. */
  function UploadMusicOutcome(music: seq<MusicDoc>, id: ObjectId, uploader: ObjectId, file: Option<UploadedFile>,
                              title: Option<string>, artist: Option<string>, album: Option<string>,
                              genre: Option<string>, tags: Option<string>, baseUrl: string): (r: (Reply<MusicDoc>, seq<MusicDoc>))
    ensures file.None? ==> r == (Failure(400, FileRequired), music)
    ensures file.Some? && (!Present(title) || !Present(artist)) ==> r == (Failure(400, TitleAndArtistRequired), music)
    ensures r.0.Success? <==> file.Some? && Present(title) && Present(artist)
                              && SchemaValid(UploadedTrack(id, uploader, file.value, title.value, artist.value, album, genre, tags, baseUrl))
    ensures file.Some? && Present(title) && Present(artist) && !r.0.Success? ==> r == (Unanswered, music)
    ensures r.0.Success? ==> r.0.status == 201 && r.0.data.id == id && r.0.data.uploadedBy == uploader
                             && r.1 == Put(music, MusicId, r.0.data)
    ensures !r.0.Success? ==> r.1 == music
    ensures r.0.Failure? ==> r.0.status == 400
  {
    if file.None? then (Failure(400, FileRequired), music)
    else if !Present(title) || !Present(artist) then (Failure(400, TitleAndArtistRequired), music)
    else
      var d := UploadedTrack(id, uploader, file.value, title.value, artist.value, album, genre, tags, baseUrl);
      Saved(music, d, Success(201, TrackUploaded, d), true)
  }

  /** With a fresh id, an accepted upload appends its track to the collection. */
  lemma UploadAppends(music: seq<MusicDoc>, nextId: ObjectId, uploader: ObjectId, file: Option<UploadedFile>,
                      title: Option<string>, artist: Option<string>, album: Option<string>,
                      genre: Option<string>, tags: Option<string>, baseUrl: string)
    requires MusicConsistent(music, nextId)
    ensures var r := UploadMusicOutcome(music, nextId, uploader, file, title, artist, album, genre, tags, baseUrl);
            r.0.Success? ==> r.1 == music + [r.0.data]
  {
    var r := UploadMusicOutcome(music, nextId, uploader, file, title, artist, album, genre, tags, baseUrl);
    if r.0.Success? {
      forall i | 0 <= i < |music| ensures MusicId(music[i]) != nextId {
        assert music[i] in music;
      }
      PutFresh(music, MusicId, r.0.data);
    }
  }

  /** Tags sent as the comma join of clean entries are stored as exactly those entries. */
  lemma UploadKeepsTags(id: ObjectId, uploader: ObjectId, file: UploadedFile, title: string, artist: string,
                        album: Option<string>, genre: Option<string>, items: seq<string>, baseUrl: string)
    requires |items| >= 1 && forall i :: 0 <= i < |items| ==> CleanItem(items[i])
    ensures UploadedTrack(id, uploader, file, title, artist, album, genre, Some(Join(items, ",")), baseUrl).tags == items
  {
    var joined := Join(items, ",");
    CommaListJoin(items);
    assert Present(Some(joined)) by {
      assert CleanItem(items[0]);
      ErrorHandler.JoinNonEmpty(items, ",");
    }
  }

  /** A title of spaces passes the handler's check but not validation: the
      request is never answered and nothing is stored. */
  lemma BlankTitleUploadUnanswered(music: seq<MusicDoc>, id: ObjectId, uploader: ObjectId, file: UploadedFile,
                                   artist: string, album: Option<string>, genre: Option<string>,
                                   tags: Option<string>, baseUrl: string)
    requires artist != ""
    ensures UploadMusicOutcome(music, id, uploader, Some(file), Some(" "), Some(artist), album, genre, tags, baseUrl)
            == (Unanswered, music)
  {
    assert Trim(" ") == "" by {
      assert IsJsWhitespace(' ');
    }
  }

  method UploadMusic(db: Database, uploader: ObjectId, file: Option<UploadedFile>, title: Option<string>,
                     artist: Option<string>, album: Option<string>, genre: Option<string>, tags: Option<string>,
                     baseUrl: string) returns (reply: Reply<MusicDoc>)
    requires db.Valid()
    modifies db
    ensures db.Valid() && db.users == old(db.users)
    ensures (reply, db.music) == UploadMusicOutcome(old(db.music), old(db.nextId), uploader, file, title, artist, album, genre, tags, baseUrl)
  {
    if file.None? {
      return Failure(400, FileRequired);
    }
    if !Present(title) || !Present(artist) {
      return Failure(400, TitleAndArtistRequired);
    }
    var id := db.FreshId();
    var d := UploadedTrack(id, uploader, file.value, title.value, artist.value, album, genre, tags, baseUrl);
    assert UploadMusicOutcome(old(db.music), id, uploader, file, title, artist, album, genre, tags, baseUrl)
           == Saved(db.music, d, Success(201, TrackUploaded, d), true);
    var m := new Music.Hydrate(d);
    reply := SaveTrack(db, m, Success(201, TrackUploaded, d), true);
  }

  // ---------------------------------------------------------------- cover image

  /** `uploadCoverImage`: the owner's track gets the image's URL; a refused
      save is only logged. */
  function UploadCoverOutcome(music: seq<MusicDoc>, requester: ObjectId, id: ObjectId, file: Option<UploadedFile>,
                              baseUrl: string): (r: (Reply<string>, seq<MusicDoc>))
    ensures file.None? ==> r == (Failure(400, ImageRequired), music)
    ensures file.Some? && FindMusicById(music, id).None? ==> r == (Failure(404, TrackNotFound), music)
    ensures file.Some? && FindMusicById(music, id).Some? && FindMusicById(music, id).value.uploadedBy != requester ==>
              r == (Failure(403, NotAllowedToModify), music)
    ensures file.Some? && FindMusicById(music, id).Some? && FindMusicById(music, id).value.uploadedBy == requester && !r.0.Success? ==>
              r == (Unanswered, music)
    ensures r.0.Success? ==> file.Some? && r.0.data == baseUrl + "/uploads/images/" + file.value.filename
    ensures r.0.Success? ==> FindMusicById(music, id).Some? && FindMusicById(music, id).value.uploadedBy == requester
    ensures r.0.Success? ==> r.1 == Put(music, MusicId, FindMusicById(music, id).value.(coverImage := Some(r.0.data)))
    ensures !r.0.Success? ==> r.1 == music
  {
    if file.None? then (Failure(400, ImageRequired), music)
    else match FindMusicById(music, id)
      case None => (Failure(404, TrackNotFound), music)
      case Some(m) =>
        if m.uploadedBy != requester then (Failure(403, NotAllowedToModify), music)
        else
          var cover := baseUrl + "/uploads/images/" + file.value.filename;
          Saved(music, m.(coverImage := Some(cover)), Success(200, CoverUploaded, cover), true)
  }

  /** No validator looks at `likes`, `playCount` or `coverImage`. */
  lemma CountersNotValidated(m: MusicDoc, likes: seq<ObjectId>, playCount: int, cover: Option<string>)
    ensures ValidationErrors(m.(likes := likes, playCount := playCount, coverImage := cover)) == ValidationErrors(m)
  {
    SameErrorsAlong(m.(likes := likes, playCount := playCount, coverImage := cover), m, ValidatedPaths);
  }

  /** In a consistent store the owner's cover upload always succeeds, and the
      track is then found with its new cover. */
  lemma OwnerCoverUploadSucceeds(music: seq<MusicDoc>, nextId: ObjectId, m: MusicDoc, file: UploadedFile, baseUrl: string)
    requires MusicConsistent(music, nextId) && m in music
    ensures var r := UploadCoverOutcome(music, m.uploadedBy, m.id, Some(file), baseUrl);
            && r.0 == Success(200, CoverUploaded, baseUrl + "/uploads/images/" + file.filename)
            && FindMusicById(r.1, m.id) == Some(m.(coverImage := Some(r.0.data)))
  {
    FirstOfUnique(music, (d: MusicDoc) => d.id == m.id, m);
    var covered := m.(coverImage := Some(baseUrl + "/uploads/images/" + file.filename));
    CountersNotValidated(m, m.likes, m.playCount, covered.coverImage);
    FindMusicAfterPut(music, covered);
  }

  method UploadCoverImage(db: Database, requester: ObjectId, id: ObjectId, file: Option<UploadedFile>, baseUrl: string)
    returns (reply: Reply<string>)
    requires db.Valid()
    modifies db
    ensures db.Valid() && db.users == old(db.users) && db.nextId == old(db.nextId)
    ensures (reply, db.music) == UploadCoverOutcome(old(db.music), requester, id, file, baseUrl)
  {
    if file.None? {
      return Failure(400, ImageRequired);
    }
    var found := FindMusicById(db.music, id);
    if found.None? {
      return Failure(404, TrackNotFound);
    }
    if found.value.uploadedBy != requester {
      return Failure(403, NotAllowedToModify);
    }
    var m := new Music.Hydrate(found.value);
    m.coverImage := Some(baseUrl + "/uploads/images/" + file.value.filename);
    reply := SaveTrack(db, m, Success(200, CoverUploaded, m.coverImage.value), true);
  }

  // ---------------------------------------------------------------- metadata

  /** The fields of an update body that `updateMusic` reads. */
  datatype TrackUpdate = TrackUpdate(
    title: Option<string>,
    artist: Option<string>,
    album: Option<string>,
    genre: Option<string>,
    tags: Option<string>,
    /** Set only when the body holds a JSON boolean. */
    isPublic: Option<bool>)

  /** The document after the assignments of `updateMusic`: each truthy text
      field through its `trim` setter, `isPublic` when it is a boolean, and the
      tags parsed as a comma list. */
  function Updated(m: MusicDoc, u: TrackUpdate): (d: MusicDoc)
    ensures d.id == m.id && d.uploadedBy == m.uploadedBy && d.filePath == m.filePath && d.fileSize == m.fileSize
    ensures d.mimeType == m.mimeType && d.coverImage == m.coverImage && d.duration == m.duration
    ensures d.playCount == m.playCount && d.likes == m.likes
    ensures Present(u.tags) ==> forall t :: t in d.tags ==> CleanItem(t)
    ensures u == TrackUpdate(None, None, None, None, None, None) ==> d == m
  {
    var items := if Present(u.tags) then CommaList(u.tags.value) else m.tags;
    assert Present(u.tags) ==> TrimAll(items) == items by {
      if Present(u.tags) {
        TrimAllOfClean(items);
      }
    }
    m.(title := if Present(u.title) then Trim(u.title.value) else m.title,
       artist := if Present(u.artist) then Trim(u.artist.value) else m.artist,
       album := if Present(u.album) then Some(Trim(u.album.value)) else m.album,
       genre := if Present(u.genre) then Some(Trim(u.genre.value)) else m.genre,
       isPublic := u.isPublic.GetOr(m.isPublic),
       tags := if Present(u.tags) then TrimAll(items) else m.tags)
  }

  /** `Updated` is the field-by-field merge. */
  lemma UpdatedFieldByField(m: MusicDoc, u: TrackUpdate, d: MusicDoc)
    requires d == m.(title := d.title, artist := d.artist, album := d.album, genre := d.genre, isPublic := d.isPublic, tags := d.tags)
    requires d.title == (if Present(u.title) then Trim(u.title.value) else m.title)
    requires d.artist == (if Present(u.artist) then Trim(u.artist.value) else m.artist)
    requires d.album == (if Present(u.album) then Some(Trim(u.album.value)) else m.album)
    requires d.genre == (if Present(u.genre) then Some(Trim(u.genre.value)) else m.genre)
    requires d.isPublic == u.isPublic.GetOr(m.isPublic)
    requires d.tags == (if Present(u.tags) then TrimAll(CommaList(u.tags.value)) else m.tags)
    ensures d == Updated(m, u)
  {
  }

  /** `updateMusic`: a refused save goes to the error handler. */
  function UpdateMusicOutcome(music: seq<MusicDoc>, requester: ObjectId, id: ObjectId, u: TrackUpdate): (r: (Reply<MusicDoc>, seq<MusicDoc>))
    ensures r.0.Success? ==> FindMusicById(music, id).Some? && FindMusicById(music, id).value.uploadedBy == requester
    ensures r.0.Success? ==> r.0.data == Updated(FindMusicById(music, id).value, u) && r.1 == Put(music, MusicId, r.0.data)
    ensures r.0.Failure? ==> r.1 == music
    ensures !r.0.Unanswered?
  {
    match FindMusicById(music, id)
    case None => (Failure(404, TrackNotFound), music)
    case Some(m) =>
      if m.uploadedBy != requester then (Failure(403, NotAllowedToModify), music)
      else Saved(music, Updated(m, u), Success(200, TrackUpdated, Updated(m, u)), false)
  }

  /** The owner's update the schema refuses is answered 400 with the
      validation messages and changes nothing; a title of spaces is refused
      for being missing. */
  lemma RefusedUpdateIs400(music: seq<MusicDoc>, nextId: ObjectId, m: MusicDoc, u: TrackUpdate)
    requires MusicConsistent(music, nextId) && m in music
    requires !SchemaValid(Updated(m, u))
    ensures UpdateMusicOutcome(music, m.uploadedBy, m.id, u)
            == (Failure(400, Join(ValidationErrors(Updated(m, u)), ", ")), music)
  {
    FirstOfUnique(music, (d: MusicDoc) => d.id == m.id, m);
  }

  /** A title of spaces on an otherwise unchanged track is refused with the
      message for a missing title. */
  lemma BlankTitleUpdateRefused(music: seq<MusicDoc>, nextId: ObjectId, m: MusicDoc)
    requires MusicConsistent(music, nextId) && m in music
    ensures UpdateMusicOutcome(music, m.uploadedBy, m.id, TrackUpdate(Some(" "), None, None, None, None, None))
            == (Failure(400, MusicModel.TitleRequired), music)
  {
    var u := TrackUpdate(Some(" "), None, None, None, None, None);
    assert Trim(" ") == "" by {
      assert IsJsWhitespace(' ');
    }
    assert SchemaValid(m);
    var d := Updated(m, u);
    ErrorsAlongPass(d, ValidatedPaths[1..]);
    assert ErrorsAlong(d, ValidatedPaths[1..]) == [];
    assert ValidationErrors(d) == [MusicModel.TitleRequired];
    RefusedUpdateIs400(music, nextId, m, u);
  }

  /** Only the owner may update; anyone else gets 403 and nothing changes. */
  lemma OnlyOwnerUpdates(music: seq<MusicDoc>, nextId: ObjectId, m: MusicDoc, requester: ObjectId, u: TrackUpdate)
    requires MusicConsistent(music, nextId) && m in music && requester != m.uploadedBy
    ensures UpdateMusicOutcome(music, requester, m.id, u) == (Failure(403, NotAllowedToModify), music)
  {
    FirstOfUnique(music, (d: MusicDoc) => d.id == m.id, m);
  }

  /** The field assignments of `updateMusic` on the loaded document. */
  method AssignUpdate(m: Music, u: TrackUpdate)
    modifies m
    ensures m.Doc() == Updated(old(m.Doc()), u)
  {
    AssignNames(m, u);
    AssignDetails(m, u);
    if Present(u.tags) { m.tags := TrimAll(CommaList(u.tags.value)); }
  }

  /** The assignments of `title` and `artist`. */
  method AssignNames(m: Music, u: TrackUpdate)
    modifies m
    ensures m.Doc() == old(m.Doc()).(title := if Present(u.title) then Trim(u.title.value) else old(m.title),
                                     artist := if Present(u.artist) then Trim(u.artist.value) else old(m.artist))
  {
    if Present(u.title) { m.title := Trim(u.title.value); }
    if Present(u.artist) { m.artist := Trim(u.artist.value); }
  }

  /** The assignments of `album`, `genre` and `isPublic`. */
  method AssignDetails(m: Music, u: TrackUpdate)
    modifies m
    ensures m.Doc() == old(m.Doc()).(album := if Present(u.album) then Some(Trim(u.album.value)) else old(m.album),
                                     genre := if Present(u.genre) then Some(Trim(u.genre.value)) else old(m.genre),
                                     isPublic := u.isPublic.GetOr(old(m.isPublic)))
  {
    if Present(u.album) { m.album := Some(Trim(u.album.value)); }
    if Present(u.genre) { m.genre := Some(Trim(u.genre.value)); }
    if u.isPublic.Some? { m.isPublic := u.isPublic.value; }
  }


  method UpdateMusic(db: Database, requester: ObjectId, id: ObjectId, u: TrackUpdate) returns (reply: Reply<MusicDoc>)
    requires db.Valid()
    modifies db
    ensures db.Valid() && db.users == old(db.users) && db.nextId == old(db.nextId)
    ensures (reply, db.music) == UpdateMusicOutcome(old(db.music), requester, id, u)
  {
    var found := FindMusicById(db.music, id);
    if found.None? {
      return Failure(404, TrackNotFound);
    }
    if found.value.uploadedBy != requester {
      return Failure(403, NotAllowedToModify);
    }
    var m := new Music.Hydrate(found.value);
    AssignUpdate(m, u);
    assert UpdateMusicOutcome(old(db.music), requester, id, u)
           == Saved(db.music, m.Doc(), Success(200, TrackUpdated, m.Doc()), false);
    reply := SaveTrack(db, m, Success(200, TrackUpdated, m.Doc()), false);
  }

  // ---------------------------------------------------------------- delete

  /** `deleteMusic`: the owner's track is removed and every other track kept. */
  function DeleteMusicOutcome(music: seq<MusicDoc>, requester: ObjectId, id: ObjectId): (r: (Reply<()>, seq<MusicDoc>))
    ensures FindMusicById(music, id).None? ==> r == (Failure(404, TrackNotFound), music)
    ensures FindMusicById(music, id).Some? && FindMusicById(music, id).value.uploadedBy != requester ==>
              r == (Failure(403, NotAllowedToDelete), music)
    ensures r.0.Success? <==> FindMusicById(music, id).Some? && FindMusicById(music, id).value.uploadedBy == requester
    ensures r.0.Success? ==> r.0 == Success(200, TrackDeleted, ()) && FindMusicById(r.1, id).None? && forall x :: x in music && x.id != id <==> x in r.1
    ensures !r.0.Success? ==> r.1 == music
  {
    match FindMusicById(music, id)
    case None => (Failure(404, TrackNotFound), music)
    case Some(m) =>
      if m.uploadedBy != requester then (Failure(403, NotAllowedToDelete), music)
      else (Success(200, TrackDeleted, ()), Without(music, (d: MusicDoc) => d.id == id))
  }

  method DeleteMusic(db: Database, requester: ObjectId, id: ObjectId) returns (reply: Reply<()>)
    requires db.Valid()
    modifies db
    ensures db.Valid() && db.users == old(db.users) && db.nextId == old(db.nextId)
    ensures (reply, db.music) == DeleteMusicOutcome(old(db.music), requester, id)
  {
    var found := FindMusicById(db.music, id);
    if found.None? {
      return Failure(404, TrackNotFound);
    }
    if found.value.uploadedBy != requester {
      return Failure(403, NotAllowedToDelete);
    }
    db.DeleteMusicById(id);
    reply := Success(200, TrackDeleted, ());
  }

  // ---------------------------------------------------------------- likes and plays

  /** `likeMusic`: a second like from the same user is refused. */
  function LikeMusicOutcome(music: seq<MusicDoc>, requester: ObjectId, id: ObjectId): (r: (Reply<nat>, seq<MusicDoc>))
    ensures r.0.Success? ==> FindMusicById(music, id).Some? && requester !in FindMusicById(music, id).value.likes
    ensures r.0.Success? ==> var m := FindMusicById(music, id).value;
                             r.1 == Put(music, MusicId, m.(likes := m.likes + [requester])) && r.0.data == m.LikeCount() + 1
    ensures !r.0.Success? ==> r.1 == music
    ensures !r.0.Unanswered?
  {
    match FindMusicById(music, id)
    case None => (Failure(404, TrackNotFound), music)
    case Some(m) =>
      if requester in m.likes then (Failure(400, AlreadyLiked), music)
      else
        var liked := m.(likes := Add(m.likes, requester));
        Saved(music, liked, Success(200, TrackLiked, liked.LikeCount()), false)
  }

  /** `unlikeMusic`: every like of the requester is dropped, whether or not
      there was one. */
  function UnlikeMusicOutcome(music: seq<MusicDoc>, requester: ObjectId, id: ObjectId): (r: (Reply<nat>, seq<MusicDoc>))
    ensures r.0.Success? ==> FindMusicById(music, id).Some?
    ensures r.0.Success? ==> var m := FindMusicById(music, id).value;
                             r.1 == Put(music, MusicId, m.(likes := RemoveAll(m.likes, requester))) && r.0.data == |RemoveAll(m.likes, requester)|
    ensures !r.0.Success? ==> r.1 == music
    ensures !r.0.Unanswered?
  {
    match FindMusicById(music, id)
    case None => (Failure(404, TrackNotFound), music)
    case Some(m) =>
      var unliked := m.(likes := RemoveAll(m.likes, requester));
      Saved(music, unliked, Success(200, LikeWithdrawn, unliked.LikeCount()), false)
  }

  /** In a consistent store a like succeeds once: the count grows by one and
      the same like again is refused with 400. */
  lemma LikeOnce(music: seq<MusicDoc>, nextId: ObjectId, m: MusicDoc, requester: ObjectId)
    requires MusicConsistent(music, nextId) && m in music && requester !in m.likes
    ensures var (reply, after) := LikeMusicOutcome(music, requester, m.id);
            && reply == Success(200, TrackLiked, m.LikeCount() + 1)
            && after == Put(music, MusicId, m.(likes := m.likes + [requester]))
            && LikeMusicOutcome(after, requester, m.id) == (Failure(400, AlreadyLiked), after)
  {
    FirstOfUnique(music, (d: MusicDoc) => d.id == m.id, m);
    var liked := m.(likes := m.likes + [requester]);
    CountersNotValidated(m, liked.likes, m.playCount, m.coverImage);
    FindMusicAfterPut(music, liked);
  }

  /** An unlike right after a like restores the collection exactly. */
  lemma UnlikeUndoesLike(music: seq<MusicDoc>, nextId: ObjectId, m: MusicDoc, requester: ObjectId)
    requires MusicConsistent(music, nextId) && m in music && requester !in m.likes
    ensures var after := Put(music, MusicId, m.(likes := m.likes + [requester]));
            UnlikeMusicOutcome(after, requester, m.id) == (Success(200, LikeWithdrawn, m.LikeCount()), music)
  {
    var liked := m.(likes := m.likes + [requester]);
    FindMusicAfterPut(music, liked);
    LikeThenUnlike(m.likes, requester);
    assert liked.(likes := RemoveAll(liked.likes, requester)) == m;
    assert SchemaValid(m);
    PutTwice(music, MusicId, liked, m);
    PutStored(music, MusicId, m);
  }

  method LikeMusic(db: Database, requester: ObjectId, id: ObjectId) returns (reply: Reply<nat>)
    requires db.Valid()
    modifies db
    ensures db.Valid() && db.users == old(db.users) && db.nextId == old(db.nextId)
    ensures (reply, db.music) == LikeMusicOutcome(old(db.music), requester, id)
  {
    var found := FindMusicById(db.music, id);
    if found.None? {
      return Failure(404, TrackNotFound);
    }
    if requester in found.value.likes {
      return Failure(400, AlreadyLiked);
    }
    var m := new Music.Hydrate(found.value);
    m.Like(requester);
    reply := SaveTrack(db, m, Success(200, TrackLiked, m.Doc().LikeCount()), false);
  }

  method UnlikeMusic(db: Database, requester: ObjectId, id: ObjectId) returns (reply: Reply<nat>)
    requires db.Valid()
    modifies db
    ensures db.Valid() && db.users == old(db.users) && db.nextId == old(db.nextId)
    ensures (reply, db.music) == UnlikeMusicOutcome(old(db.music), requester, id)
  {
    var found := FindMusicById(db.music, id);
    if found.None? {
      return Failure(404, TrackNotFound);
    }
    var m := new Music.Hydrate(found.value);
    m.Unlike(requester);
    reply := SaveTrack(db, m, Success(200, LikeWithdrawn, m.Doc().LikeCount()), false);
  }

  datatype PlayResult = PlayResult(reply: Reply<int>, music: seq<MusicDoc>, users: seq<UserModel.UserDoc>)

  /** `playMusic`: one more play, then the track is added to the requester's
      recently played ids. */
  function PlayMusicOutcome(music: seq<MusicDoc>, users: seq<UserModel.UserDoc>, requester: ObjectId, id: ObjectId): (r: PlayResult)
    ensures FindMusicById(music, id).None? ==> r.reply == Failure(404, TrackNotFound)
    ensures r.reply.Success? ==> r.users == AddRecentlyPlayed(users, requester, id)
    ensures !r.reply.Success? ==> r.music == music && r.users == users
    ensures !r.reply.Unanswered?
  {
    match FindMusicById(music, id)
    case None => PlayResult(Failure(404, TrackNotFound), music, users)
    case Some(m) =>
      var saved := Saved(music, m.(playCount := m.playCount + 1), Success(200, TrackPlayed, m.playCount + 1), false);
      PlayResult(saved.0, saved.1, if saved.0.Success? then AddRecentlyPlayed(users, requester, id) else users)
  }

  /** A stored track that passes validation always plays: its count goes up by
      one, it is written back and it joins the requester's recently played. */
  lemma StoredTrackPlays(music: seq<MusicDoc>, users: seq<UserModel.UserDoc>, requester: ObjectId, d: MusicDoc)
    requires FindMusicById(music, d.id) == Some(d) && SchemaValid(d)
    ensures PlayMusicOutcome(music, users, requester, d.id)
            == PlayResult(Success(200, TrackPlayed, d.playCount + 1),
                          Put(music, MusicId, d.(playCount := d.playCount + 1)),
                          AddRecentlyPlayed(users, requester, d.id))
  {
    CountersNotValidated(d, d.likes, d.playCount + 1, d.coverImage);
  }

  /** Playing a stored track twice counts two plays but records it once among
      the requester's recently played tracks. */
  lemma PlayTwice(music: seq<MusicDoc>, users: seq<UserModel.UserDoc>, nextId: ObjectId, m: MusicDoc, requester: ObjectId)
    requires MusicConsistent(music, nextId) && m in music
    ensures var first := PlayMusicOutcome(music, users, requester, m.id);
            var second := PlayMusicOutcome(first.music, first.users, requester, m.id);
            && second.reply == Success(200, TrackPlayed, m.playCount + 2)
            && second.users == first.users
            && forall u :: u in second.users && u.id == requester ==> m.id in u.recentlyPlayed
  {
    FirstOfUnique(music, (d: MusicDoc) => d.id == m.id, m);
    PlayFoundTwice(music, users, m, requester);
  }

  /** `PlayTwice` for a track the lookup finds and that passes validation. */
  lemma PlayFoundTwice(music: seq<MusicDoc>, users: seq<UserModel.UserDoc>, m: MusicDoc, requester: ObjectId)
    requires FindMusicById(music, m.id) == Some(m) && SchemaValid(m)
    ensures var first := PlayMusicOutcome(music, users, requester, m.id);
            var second := PlayMusicOutcome(first.music, first.users, requester, m.id);
            && second.reply == Success(200, TrackPlayed, m.playCount + 2)
            && second.users == first.users
            && forall u :: u in second.users && u.id == requester ==> m.id in u.recentlyPlayed
  {
    StoredTrackPlays(music, users, requester, m);
    var once := m.(playCount := m.playCount + 1);
    var firstMusic := Put(music, MusicId, once);
    var firstUsers := AddRecentlyPlayed(users, requester, m.id);
    assert PlayMusicOutcome(music, users, requester, m.id)
        == PlayResult(Success(200, TrackPlayed, m.playCount + 1), firstMusic, firstUsers);
    CountersNotValidated(m, m.likes, once.playCount, m.coverImage);
    FindMusicAfterPut(music, once);
    StoredTrackPlays(firstMusic, firstUsers, requester, once);
    RecentlyPlayedTwice(users, requester, m.id);
  }

  /** Recording the same track twice is recording it once, and it is then
      among the user's recently played. */
  lemma RecentlyPlayedTwice(users: seq<UserModel.UserDoc>, requester: ObjectId, id: ObjectId)
    ensures var once := AddRecentlyPlayed(users, requester, id);
            && AddRecentlyPlayed(once, requester, id) == once
            && forall u :: u in once && u.id == requester ==> id in u.recentlyPlayed
  {
    var once := AddRecentlyPlayed(users, requester, id);
    var twice := AddRecentlyPlayed(once, requester, id);
    forall i | 0 <= i < |users| ensures twice[i] == once[i] {
      if users[i].id == requester {
        AddIdempotent(users[i].recentlyPlayed, id);
      }
    }
  }

  /** The steps of `playMusic` on a stored track give its outcome. */
  lemma PlaySteps(music: seq<MusicDoc>, users: seq<UserModel.UserDoc>, requester: ObjectId, id: ObjectId, found: MusicDoc,
                  reply: Reply<int>, musicAfter: seq<MusicDoc>, usersAfter: seq<UserModel.UserDoc>)
    requires FindMusicById(music, id) == Some(found)
    requires (reply, musicAfter) == Saved(music, found.(playCount := found.playCount + 1), Success(200, TrackPlayed, found.playCount + 1), false)
    requires usersAfter == if reply.Success? then AddRecentlyPlayed(users, requester, id) else users
    ensures PlayResult(reply, musicAfter, usersAfter) == PlayMusicOutcome(music, users, requester, id)
  {
  }

  method PlayMusic(db: Database, requester: ObjectId, id: ObjectId) returns (reply: Reply<int>)
    requires db.Valid()
    modifies db
    ensures db.Valid() && db.nextId == old(db.nextId)
    ensures PlayResult(reply, db.music, db.users) == PlayMusicOutcome(old(db.music), old(db.users), requester, id)
  {
    var found := FindMusicById(db.music, id);
    if found.None? {
      return Failure(404, TrackNotFound);
    }
    reply := PlayFound(db, requester, id, found.value);
  }

  /** `playMusic` once the track is loaded. */
  method PlayFound(db: Database, requester: ObjectId, id: ObjectId, found: MusicDoc) returns (reply: Reply<int>)
    requires db.Valid() && FindMusicById(db.music, id) == Some(found)
    modifies db
    ensures db.Valid() && db.nextId == old(db.nextId)
    ensures PlayResult(reply, db.music, db.users) == PlayMusicOutcome(old(db.music), old(db.users), requester, id)
  {
    ghost var music, users := db.music, db.users;
    var m := new Music.Hydrate(found);
    m.IncrementPlayCount();
    assert m.Doc() == found.(playCount := found.playCount + 1) && m.playCount == found.playCount + 1;
    reply := SaveTrack(db, m, Success(200, TrackPlayed, m.playCount), false);
    if reply.Success? {
      db.AddToRecentlyPlayed(requester, id);
    }
    PlaySteps(music, users, requester, id, found, reply, db.music, db.users);
  }


}

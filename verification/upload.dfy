/** The upload middleware of backend/middleware/upload.js: which files multer
    lets through (the type filters and the size limits) and the name a stored
    file gets. The disk itself, the destination directories and the bytes are
    not part of this model; the clock and the random draw of the file name
    come in as numbers. */
module Upload {
  import opened Wrappers
  import opened Text
  import ErrorHandler

  /** The parts of a multer file the middleware reads. */
  datatype IncomingFile = IncomingFile(fieldname: string, originalname: string, mimetype: string)

  // ---------------------------------------------------------------- path.extname

  /** `s.lastIndexOf(c)`. */
  function LastIndexOf(s: string, c: char): (r: Option<nat>)
    ensures r.None? <==> c !in s
    ensures r.Some? ==> r.value < |s| && s[r.value] == c && c !in s[r.value + 1..]
  {
    if |s| == 0 then None
    else if s[|s| - 1] == c then Some(|s| - 1)
    else
      var r := LastIndexOf(s[..|s| - 1], c);
      assert s == s[..|s| - 1] + [s[|s| - 1]];
      r
  }

  /** The last segment of a POSIX path. */
  function BaseName(p: string): (b: string)
    ensures '/' !in b && EndsWith(p, b)
  {
    match LastIndexOf(p, '/')
    case None => p
    case Some(k) => p[k + 1..]
  }

  /** `path.extname`: the last segment from its last dot on, or "" when the
      segment has no dot, starts with its only dot (a dot-file), or is "..". */
  function ExtName(name: string): (ext: string)
    ensures ext == "" || (ext[0] == '.' && '.' !in ext[1..] && '/' !in ext && EndsWith(name, ext) && |ext| < |name|)
  {
    var b := BaseName(name);
    match LastIndexOf(b, '.')
    case None => ""
    case Some(k) =>
      if k == 0 || b == ".." then ""
      else
        SuffixOfSuffix(name, b, k);
        b[k..]
  }

  lemma SuffixOfSuffix(s: string, b: string, k: nat)
    requires EndsWith(s, b) && k <= |b|
    ensures EndsWith(s, b[k..])
  {
    assert s[|s| - |b[k..]|..] == s[|s| - |b|..][k..];
  }

  /** The last occurrence is the one after which the character does not occur. */
  lemma {:induction false} LastIndexOfUnique(s: string, c: char, k: nat)
    requires k < |s| && s[k] == c && c !in s[k + 1..]
    ensures LastIndexOf(s, c) == Some(k)
  {
    if k < |s| - 1 {
      assert s[|s| - 1] in s[k + 1..];
      assert s[..|s| - 1][k + 1..] == s[k + 1..|s| - 1];
      LastIndexOfUnique(s[..|s| - 1], c, k);
    }
  }

  /** A name whose last segment is a non-empty stem, a dot and a dot-free
      extension has exactly that extension. */
  lemma ExtNameOfStemAndExtension(stem: string, e: string)
    requires stem != "" && stem != "." && '/' !in stem && '/' !in e && '.' !in e
    ensures ExtName(stem + "." + e) == "." + e
  {
    var name := stem + "." + e;
    NotDotDot(stem, e);
    assert '/' !in name;
    assert name[|stem|..] == "." + e;
    assert name[|stem| + 1..] == e;
    LastIndexOfUnique(name, '.', |stem|);
  }

  lemma NotDotDot(stem: string, e: string)
    requires stem != "" && stem != "."
    ensures stem + "." + e != ".."
  {
    if |stem| == 1 {
      assert stem == [stem[0]];
      assert (stem + "." + e)[0] == stem[0];
    }
  }

  lemma ExtNameWithoutDot(name: string)
    requires '.' !in name && '/' !in name
    ensures ExtName(name) == ""
  {
    assert BaseName(name) == name;
  }

  /** Lower-casing a name and taking its extension commute: the dot and the
      slash are not letters. */
  lemma ExtNameOfLower(name: string)
    ensures ExtName(Lower(name)) == Lower(ExtName(name))
  {
    BaseNameOfLower(name);
    var b := BaseName(name);
    LastIndexOfLower(b, '.');
    LowerDotDot(b);
    match LastIndexOf(b, '.')
    case None =>
    case Some(k) => LowerSuffix(b, k);
  }

  lemma BaseNameOfLower(name: string)
    ensures BaseName(Lower(name)) == Lower(BaseName(name))
  {
    LastIndexOfLower(name, '/');
    match LastIndexOf(name, '/')
    case None =>
    case Some(k) => LowerSuffix(name, k + 1);
  }

  lemma LowerSuffix(s: string, k: nat)
    requires k <= |s|
    ensures Lower(s)[k..] == Lower(s[k..])
  {
  }

  lemma LowerDotDot(b: string)
    ensures Lower(b) == ".." <==> b == ".."
  {
    if Lower(b) == ".." {
      assert LowerChar(b[0]) == '.' && LowerChar(b[1]) == '.';
    }
    if b == ".." {
      assert Lower(b)[0] == '.' && Lower(b)[1] == '.';
    }
  }

  lemma {:induction false} LastIndexOfLower(s: string, c: char)
    requires c == '.' || c == '/'
    ensures LastIndexOf(Lower(s), c) == LastIndexOf(s, c)
  {
    if |s| > 0 {
      assert Lower(s)[..|s| - 1] == Lower(s[..|s| - 1]);
      LastIndexOfLower(s[..|s| - 1], c);
    }
  }

  // ---------------------------------------------------------------- filters

  const AudioTypes: seq<string> := ["mp3", "wav", "flac", "m4a", "aac", "ogg"]
  const ImageTypes: seq<string> := ["jpeg", "jpg", "png", "gif", "webp"]
  const AudioRejected := "Dozwolone są tylko pliki audio (MP3, WAV, FLAC, M4A, AAC, OGG)"
  const ImageRejected := "Dozwolone są tylko pliki obrazów (JPEG, JPG, PNG, GIF, WEBP)"

  /** What a file filter hands to multer's callback: `cb(null, true)` or `cb(new Error(message))`. */
  datatype FilterResult = Accept | Reject(message: string)

  /** Both the lower-cased extension and the (unchanged) mimetype must contain
      one of the allowed type names; otherwise the filter fails with `message`. */
  function FileFilter(file: IncomingFile, allowed: seq<string>, message: string): (r: FilterResult)
    ensures r.Accept? <==> ContainsAny(Lower(ExtName(file.originalname)), allowed) && ContainsAny(file.mimetype, allowed)
    ensures r.Reject? ==> r.message == message
  {
    if ContainsAny(file.mimetype, allowed) && ContainsAny(Lower(ExtName(file.originalname)), allowed) then Accept
    else Reject(message)
  }

  function MusicFilter(file: IncomingFile): FilterResult {
    FileFilter(file, AudioTypes, AudioRejected)
  }

  function ImageFilter(file: IncomingFile): FilterResult {
    FileFilter(file, ImageTypes, ImageRejected)
  }

  /** The case of the original name does not matter to a filter; the case of
      the mimetype does. */
  lemma FilterIgnoresNameCase(file: IncomingFile, allowed: seq<string>, message: string)
    ensures FileFilter(file.(originalname := Lower(file.originalname)), allowed, message) == FileFilter(file, allowed, message)
  {
    ExtNameOfLower(file.originalname);
    LowerIdempotent(ExtName(file.originalname));
  }

  /** A name `<stem>.<e>` whose extension lower-cases to one of the allowed
      types, sent with a mimetype ending in that type, passes the filter. */
  lemma AllowedExtensionAccepted(file: IncomingFile, stem: string, e: string, mimePrefix: string, allowed: seq<string>, k: nat, message: string)
    requires k < |allowed| && Lower(e) == allowed[k]
    requires stem != "" && stem != "." && '/' !in stem && '/' !in e && '.' !in e
    requires file.originalname == stem + "." + e && file.mimetype == mimePrefix + allowed[k]
    ensures FileFilter(file, allowed, message) == Accept
  {
    ExtNameOfStemAndExtension(stem, e);
    LowerDotPrefix(e);
    assert Lower(ExtName(file.originalname)) == "." + allowed[k];
    ContainsSuffix(".", allowed[k]);
    ContainsSuffix(mimePrefix, allowed[k]);
  }

  lemma LowerDotPrefix(e: string)
    ensures Lower("." + e) == "." + Lower(e)
  {
  }

  lemma ContainsSuffix(a: string, b: string)
    ensures Contains(a + b, b)
  {
    assert (a + b)[|a|..] == b;
    assert StartsWith((a + b)[|a|..], b);
  }

  /** A name ending in `.mp3` or `.MP3` sent as `audio/mp3` passes the music filter. */
  lemma Mp3Accepted(file: IncomingFile, stem: string)
    requires stem != "" && stem != "." && '/' !in stem
    requires file.originalname == stem + ".mp3" || file.originalname == stem + ".MP3"
    requires file.mimetype == "audio/mp3"
    ensures MusicFilter(file) == Accept
  {
    assert file.mimetype == "audio/" + AudioTypes[0];
    if file.originalname == stem + ".mp3" {
      assert file.originalname == stem + "." + "mp3";
      assert Lower("mp3") == "mp3" by {
        assert Lower("mp3")[0] == 'm' && Lower("mp3")[1] == 'p' && Lower("mp3")[2] == '3';
      }
      AllowedExtensionAccepted(file, stem, "mp3", "audio/", AudioTypes, 0, AudioRejected);
    } else {
      assert file.originalname == stem + "." + "MP3";
      assert Lower("MP3") == "mp3" by {
        assert Lower("MP3")[0] == 'm' && Lower("MP3")[1] == 'p' && Lower("MP3")[2] == '3';
      }
      AllowedExtensionAccepted(file, stem, "MP3", "audio/", AudioTypes, 0, AudioRejected);
    }
  }

  /** A text lacking one of the characters of `t` does not contain `t`. */
  lemma AbsentCharacter(s: string, t: string, j: nat)
    requires j < |t| && t[j] !in s
    ensures !Contains(s, t)
  {
    forall i | 0 <= i <= |s| ensures !StartsWith(s[i..], t) {
      if i + |t| <= |s| {
        assert s[i..][..|t|][j] == s[i + j];
      }
    }
  }

  /** A text in which `c` occurs at most as its last character does not
      contain a `t` with `c` at two adjacent places inside it. */
  lemma AbsentDoubledCharacter(s: string, t: string, c: char)
    requires |t| == 3 && t[1] == c && t[2] == c && s != [] && c !in s[..|s| - 1]
    ensures !Contains(s, t)
  {
    forall i | 0 <= i <= |s| ensures !StartsWith(s[i..], t) {
      if i + 3 <= |s| {
        assert s[i..][..3][1] == s[..|s| - 1][i + 1];
      }
    }
  }

  /** The mimetype is matched as a text, so the registered type of MP3,
      `audio/mpeg`, is refused whatever the name: no audio type name occurs in it. */
  lemma MpegMimetypeRejected(file: IncomingFile)
    requires file.mimetype == "audio/mpeg"
    ensures MusicFilter(file) == Reject(AudioRejected)
  {
    var m := file.mimetype;
    assert m[..|m| - 1] == "audio/mpe";
    forall k | 0 <= k < |AudioTypes| ensures !Contains(m, AudioTypes[k]) {
      if k == 0 {
        AbsentCharacter(m, AudioTypes[k], 2);
      } else if k == 1 || k == 2 {
        AbsentCharacter(m, AudioTypes[k], 0);
      } else if k == 3 {
        AbsentCharacter(m, AudioTypes[k], 1);
      } else if k == 4 {
        AbsentCharacter(m, AudioTypes[k], 2);
      } else {
        AbsentDoubledCharacter(m, AudioTypes[k], 'g');
      }
    }
  }

  // ---------------------------------------------------------------- file names

  /** `Date.now() + '-' + Math.round(Math.random() * 1E9)`. */
  function UniqueSuffix(now: nat, draw: nat): (s: string)
    ensures '.' !in s && '/' !in s
  {
    var a, b := NatToString(now), NatToString(draw);
    assert forall i :: 0 <= i < |a| ==> IsDigit(a[i]);
    assert forall i :: 0 <= i < |b| ==> IsDigit(b[i]);
    var s := a + "-" + b;
    assert forall i :: 0 <= i < |s| ==> s[i] == if i < |a| then a[i] else if i == |a| then '-' else b[i - |a| - 1];
    s
  }

  /** `file.fieldname + '-' + uniqueSuffix + path.extname(file.originalname)`. */
  function StoredFilename(file: IncomingFile, now: nat, draw: nat): (name: string)
    ensures StartsWith(name, file.fieldname + "-" + UniqueSuffix(now, draw))
    ensures EndsWith(name, ExtName(file.originalname))
  {
    file.fieldname + "-" + UniqueSuffix(now, draw) + ExtName(file.originalname)
  }

  /** The stored name keeps the original extension: `path.extname` of it is
      that of the original name, whenever the field name has no slash (and,
      for an original without extension, no dot). */
  lemma StoredFilenameKeepsExtension(file: IncomingFile, now: nat, draw: nat)
    requires '/' !in file.fieldname
    requires ExtName(file.originalname) == "" ==> '.' !in file.fieldname
    ensures ExtName(StoredFilename(file, now, draw)) == ExtName(file.originalname)
  {
    var stem := file.fieldname + "-" + UniqueSuffix(now, draw);
    var ext := ExtName(file.originalname);
    assert '/' !in stem && '-' in stem;
    if ext == "" {
      assert StoredFilename(file, now, draw) == stem;
      ExtNameWithoutDot(stem);
    } else {
      StemAndExtension(StoredFilename(file, now, draw), stem, ext);
    }
  }

  lemma StemAndExtension(name: string, stem: string, ext: string)
    requires name == stem + ext && ext != "" && ext[0] == '.' && '.' !in ext[1..] && '/' !in ext
    requires '/' !in stem && '-' in stem
    ensures ExtName(name) == ext
  {
    assert ext == "." + ext[1..];
    assert name == stem + "." + ext[1..];
    ExtNameOfStemAndExtension(stem, ext[1..]);
  }

  // ---------------------------------------------------------------- size limits

  const DefaultMaxFileSize: int := 50000000
  const ImageMaxFileSize: int := 10000000

  /** `parseInt(process.env.MAX_FILE_SIZE) || 50000000` for the music and the
      multiple-file uploads: an unset, unparsable or zero value falls back to
      the default; any other value, negative ones included, is taken as read. */
  function MusicSizeLimit(maxFileSize: Option<string>): (limit: int)
    ensures limit != 0
    ensures maxFileSize.None? ==> limit == DefaultMaxFileSize
  {
    match maxFileSize
    case None => DefaultMaxFileSize
    case Some(s) =>
      match ParseInt(s)
      case None => DefaultMaxFileSize
      case Some(n) => if n == 0 then DefaultMaxFileSize else n
  }

  /** A positive size written in decimal overrides the default exactly. */
  lemma SizeLimitFromEnvironment(n: nat)
    ensures MusicSizeLimit(Some(NatToString(n))) == if n == 0 then DefaultMaxFileSize else n
  {
    ParseIntOfNatToString(n);
  }

  // ---------------------------------------------------------------- one file

  /** What multer does with one incoming file of `size` bytes: the filter first,
      then the size limit while the bytes arrive, then the file is stored. */
  datatype Received = Stored(filename: string) | Refused(error: ErrorHandler.JsError)

  /** The error multer raises for a file over the limit. */
  const FileTooLarge := ErrorHandler.JsError("MulterError", "File too large", None, None, [], [])

  function Receive(file: IncomingFile, size: nat, filter: FilterResult, limit: int, now: nat, draw: nat): (r: Received)
    ensures r.Stored? <==> filter.Accept? && size <= limit
    ensures r.Stored? ==> r.filename == StoredFilename(file, now, draw)
    ensures filter.Reject? ==> r == Refused(ErrorHandler.JsError("Error", filter.message, None, None, [], []))
  {
    match filter
    case Reject(message) => Refused(ErrorHandler.JsError("Error", message, None, None, [], []))
    case Accept =>
      if size > limit then Refused(FileTooLarge) else Stored(StoredFilename(file, now, draw))
  }

  /** A refused file reaches the error handler without a status code: the reply
      is 500 with the filter's message, or with multer's for an oversized file. */
  lemma RefusedFileIs500(file: IncomingFile, size: nat, filter: FilterResult, limit: int, now: nat, draw: nat)
    requires filter.Reject? ==> filter.message != ""
    ensures var r := Receive(file, size, filter, limit, now, draw);
            r.Refused? ==> ErrorHandler.Classify(r.error)
                           == ErrorHandler.ErrorResponse(500, if filter.Reject? then filter.message else "File too large")
  {
  }
}

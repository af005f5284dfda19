/** The decisions `TwitterService` takes around the Twitter API: whether it is
    configured, how a tweet's text is cut to length, how media is located,
    named and classified, which upload call each file gets, how API errors
    become results or retries, and the retry policy `post` runs under.
    Every tweepy, httpx and file-system call is replaced by its outcome, given
    as an input. */
module TwitterService {
  import opened Strings
  import opened Retry

  // Twitter API limits declared by the service
  const MAX_TWEET_LENGTH := 280
  const MAX_IMAGE_SIZE := 5 * 1024 * 1024
  const MAX_VIDEO_SIZE := 512 * 1024 * 1024
  const MAX_GIF_SIZE := 15 * 1024 * 1024

  const SUPPORTED_IMAGE_TYPES: seq<string> := [".jpg", ".jpeg", ".png", ".gif", ".webp"]
  const SUPPORTED_VIDEO_TYPES: seq<string> := [".mp4", ".mov"]

  // `post` is decorated with retry_async(max_retries=3, base_delay=2.0) and the
  // default max_delay of 30 seconds; delays are in milliseconds here
  const POST_MAX_RETRIES := 3
  const POST_BASE_DELAY_MS := 2000
  const POST_MAX_DELAY_MS := 30000

  const NOT_CONFIGURED_ERROR := "Twitter not configured. Add API credentials to .env file."
  const DUPLICATE_ERROR := "Duplicate content - this tweet was already posted"
  // written in three pieces so that `ForbiddenErrorIsPlain` can check each
  // piece character by character; the text is unchanged
  const FORBIDDEN_ERROR := "Access forbidden" + " - check your" + " app permissions"
  const AUTH_ERROR := "Authentication failed - check your API credentials"
  const STATUS_URL_PREFIX := "https://twitter.com/i/web/status/"
  const TEMP_PREFIX := "twitter_"

  // ---------------------------------------------------------------- credentials

  /** The four environment variables, None when unset. */
  datatype Credentials = Credentials(apiKey: Option<string>, apiSecret: Option<string>,
                                     accessToken: Option<string>, accessTokenSecret: Option<string>)

  /** `enabled` before client initialisation: all four credentials are truthy. */
  predicate Configured(c: Credentials)
  {
    Truthy(c.apiKey) && Truthy(c.apiSecret) && Truthy(c.accessToken) && Truthy(c.accessTokenSecret)
  }

  /** The names `_print_missing_credentials` reports: exactly the credentials
      that are unset or empty. */
  function MissingCredentials(c: Credentials): (missing: seq<string>)
    ensures missing == [] <==> Configured(c)
    ensures "TWITTER_API_KEY" in missing <==> !Truthy(c.apiKey)
    ensures "TWITTER_API_SECRET" in missing <==> !Truthy(c.apiSecret)
    ensures "TWITTER_ACCESS_TOKEN" in missing <==> !Truthy(c.accessToken)
    ensures "TWITTER_ACCESS_TOKEN_SECRET" in missing <==> !Truthy(c.accessTokenSecret)
  {
    (if Truthy(c.apiKey) then [] else ["TWITTER_API_KEY"])
    + (if Truthy(c.apiSecret) then [] else ["TWITTER_API_SECRET"])
    + (if Truthy(c.accessToken) then [] else ["TWITTER_ACCESS_TOKEN"])
    + (if Truthy(c.accessTokenSecret) then [] else ["TWITTER_ACCESS_TOKEN_SECRET"])
  }

  // ---------------------------------------------------------------- media types

  datatype MediaKind = Video | Gif | Image | Unknown

  /** The classification `_get_media_type` applies to a lower-cased suffix:
      video extensions first, then ".gif" ahead of the other image extensions. */
  function KindOfExtension(ext: string): (kind: MediaKind)
    ensures kind == Unknown <==> ext !in SUPPORTED_IMAGE_TYPES + SUPPORTED_VIDEO_TYPES
    ensures kind == Gif <==> ext == ".gif"
    ensures kind == Video <==> ext in SUPPORTED_VIDEO_TYPES
  {
    if ext in SUPPORTED_VIDEO_TYPES then Video
    else if ext == ".gif" then Gif
    else if ext in SUPPORTED_IMAGE_TYPES then Image
    else Unknown
  }

  /** `_get_media_type(file_path)` */
  function MediaType(path: string): MediaKind
  {
    KindOfExtension(Lower(Suffix(path)))
  }

  /** The MIME type and media category of a chunked upload. */
  datatype ChunkedType = ChunkedType(mimeType: string, category: string)

  /** `_upload_video_chunked`'s choice of type and category for a lower-cased
      suffix; an extension it does not know is sent as an MP4 video. */
  function ChunkedTypeOfExtension(ext: string): (t: ChunkedType)
    ensures KindOfExtension(ext) == Gif <==> t.category == "tweet_gif"
    ensures KindOfExtension(ext) == Gif ==> t == ChunkedType("image/gif", "tweet_gif")
    ensures KindOfExtension(ext) != Gif ==> t.category == "tweet_video" && StartsWith(t.mimeType, "video/")
    ensures ext == ".mov" <==> t.mimeType == "video/quicktime"
    ensures ext != ".mov" && ext != ".gif" ==> t == ChunkedType("video/mp4", "tweet_video")
  {
    if ext == ".mp4" then ChunkedType("video/mp4", "tweet_video")
    else if ext == ".mov" then ChunkedType("video/quicktime", "tweet_video")
    else if ext == ".gif" then ChunkedType("image/gif", "tweet_gif")
    else ChunkedType("video/mp4", "tweet_video")
  }

  /** The type and category `_upload_video_chunked` sends a file with: the
      category agrees with `_get_media_type` on GIFs. */
  function ChunkedUploadType(path: string): (t: ChunkedType)
    ensures MediaType(path) == Gif <==> t.category == "tweet_gif"
  {
    ChunkedTypeOfExtension(Lower(Suffix(path)))
  }

  /** A file named `stem + ext` in directory `dir`, with a dot-led lower-case
      extension, is classified by that extension alone. */
  lemma StoredFileKind(dir: string, stem: string, ext: string)
    requires |stem| > 0 && '/' !in stem
    requires |ext| >= 2 && ext[0] == '.' && '/' !in ext && '.' !in ext[1..] && Lower(ext) == ext
    ensures MediaType(dir + "/" + stem + ext) == KindOfExtension(ext)
    ensures ChunkedUploadType(dir + "/" + stem + ext) == ChunkedTypeOfExtension(ext)
  {
    SuffixOfJoined(dir, stem, ext);
  }

  // ---------------------------------------------------------------- tweet text and errors

  /** `post`'s truncation: a text over 280 characters keeps its first 277
      and ends in "...". */
  function TweetText(content: string): (text: string)
    ensures |text| == if |content| > MAX_TWEET_LENGTH then MAX_TWEET_LENGTH else |content|
    ensures |content| <= MAX_TWEET_LENGTH ==> text == content
    ensures |content| > MAX_TWEET_LENGTH ==>
      text[..MAX_TWEET_LENGTH - 3] == content[..MAX_TWEET_LENGTH - 3] && text[MAX_TWEET_LENGTH - 3..] == "..."
  {
    if |content| > MAX_TWEET_LENGTH then content[..MAX_TWEET_LENGTH - 3] + "..." else content
  }

  /** Truncating a tweet text again changes nothing. */
  lemma TweetTextStable(content: string)
    ensures TweetText(TweetText(content)) == TweetText(content)
  {
  }

  /** The message `post` reports for a Forbidden error: duplicate content takes
      precedence over a 403, otherwise the raw text is kept. */
  function ForbiddenMessage(message: string): (r: string)
    ensures Contains(Lower(message), "duplicate") ==> r == DUPLICATE_ERROR
    ensures !Contains(Lower(message), "duplicate") && Contains(message, "403") ==> r == FORBIDDEN_ERROR
    ensures !Contains(Lower(message), "duplicate") && !Contains(message, "403") ==> r == message
    ensures r == DUPLICATE_ERROR || r == FORBIDDEN_ERROR || r == message
  {
    if Contains(Lower(message), "duplicate") then DUPLICATE_ERROR
    else if Contains(message, "403") then FORBIDDEN_ERROR
    else message
  }

  /** A text that begins with "Duplicate" mentions "duplicate" once lower-cased. */
  lemma MentionsDuplicate(rest: string)
    ensures Contains(Lower("Duplicate" + rest), "duplicate")
  {
    LowerConcat("Duplicate", rest);
    LowerDuplicate();
    var t := "duplicate" + Lower(rest);
    assert t[0..9] == "duplicate";
    ContainsAt(t, "duplicate", 0);
  }

  /** A text without 'l', 'L' and '4' mentions neither "duplicate" nor "403". */
  lemma MentionsNeither(s: string)
    requires 'l' !in s && 'L' !in s && '4' !in s
    ensures !Contains(Lower(s), "duplicate")
    ensures !Contains(s, "403")
  {
    LowerAvoids(s, 'l');
    MissingCharNotContained(Lower(s), "duplicate", 'l');
    MissingCharNotContained(s, "403", '4');
  }

  lemma DuplicateErrorMentionsDuplicate()
    ensures Contains(Lower(DUPLICATE_ERROR), "duplicate")
  {
    assert DUPLICATE_ERROR == "Duplicate" + DUPLICATE_ERROR[9..];
    MentionsDuplicate(DUPLICATE_ERROR[9..]);
  }

  lemma ForbiddenErrorIsPlain()
    ensures !Contains(Lower(FORBIDDEN_ERROR), "duplicate")
    ensures !Contains(FORBIDDEN_ERROR, "403")
  {
    ForbiddenPieceA();
    ForbiddenPieceB();
    ForbiddenPieceC();
    var a, b, c := "Access forbidden", " - check your", " app permissions";
    CharNotInConcat(a, b, c, 'l');
    CharNotInConcat(a, b, c, 'L');
    CharNotInConcat(a, b, c, '4');
    MentionsNeither(FORBIDDEN_ERROR);
  }

  /** Mapping an already mapped message leaves it as it is: both replacement
      messages map to themselves. */
  lemma ForbiddenMessageStable(message: string)
    ensures ForbiddenMessage(ForbiddenMessage(message)) == ForbiddenMessage(message)
  {
    var r := ForbiddenMessage(message);
    if r == DUPLICATE_ERROR {
      DuplicateErrorMentionsDuplicate();
    } else if r == FORBIDDEN_ERROR {
      ForbiddenErrorIsPlain();
    }
  }

  // ---------------------------------------------------------------- downloads

  /** `download_media`'s content-type table, in the order it is searched. */
  const DOWNLOAD_EXTENSIONS: seq<(string, string)> := [
    ("image/jpeg", ".jpg"), ("image/jpg", ".jpg"), ("image/png", ".png"), ("image/gif", ".gif"),
    ("image/webp", ".webp"), ("video/mp4", ".mp4"), ("video/quicktime", ".mov")]

  /** The first entry from `i` on whose content type occurs in `contentType`,
      or the table's length when there is none. */
  function FirstMatchFrom(contentType: string, i: nat): (k: nat)
    requires i <= |DOWNLOAD_EXTENSIONS|
    ensures i <= k <= |DOWNLOAD_EXTENSIONS|
    ensures k < |DOWNLOAD_EXTENSIONS| ==> Contains(contentType, DOWNLOAD_EXTENSIONS[k].0)
    ensures forall j :: i <= j < k ==> !Contains(contentType, DOWNLOAD_EXTENSIONS[j].0)
    decreases |DOWNLOAD_EXTENSIONS| - i
  {
    if i == |DOWNLOAD_EXTENSIONS| || Contains(contentType, DOWNLOAD_EXTENSIONS[i].0) then i
    else FirstMatchFrom(contentType, i + 1)
  }

  predicate Supported(ext: string)
  {
    ext in SUPPORTED_IMAGE_TYPES + SUPPORTED_VIDEO_TYPES
  }

  /** The extension `download_media` gives its temporary file: that of the first
      content type found in the header, else the URL's own suffix lower-cased
      with the query string removed, else ".jpg" when that suffix is not
      supported. */
  function DownloadExtension(contentType: string, url: string): (ext: string)
    ensures Supported(ext)
    ensures FirstMatchFrom(contentType, 0) < |DOWNLOAD_EXTENSIONS| ==>
      ext == DOWNLOAD_EXTENSIONS[FirstMatchFrom(contentType, 0)].1
    ensures FirstMatchFrom(contentType, 0) == |DOWNLOAD_EXTENSIONS| ==>
      ext == (if Supported(Lower(Suffix(BeforeQuery(url)))) then Lower(Suffix(BeforeQuery(url))) else ".jpg")
  {
    var k := FirstMatchFrom(contentType, 0);
    if k < |DOWNLOAD_EXTENSIONS| then
      assert DOWNLOAD_EXTENSIONS[k].1 in [".jpg", ".png", ".gif", ".webp", ".mp4", ".mov"];
      DOWNLOAD_EXTENSIONS[k].1
    else
      var fromUrl := Lower(Suffix(BeforeQuery(url)));
      if Supported(fromUrl) then fromUrl else ".jpg"
  }

  /** The extension search of `download_media`: a loop over the table that
      stops at the first content type found in the header, then the fallbacks. */
  method ChooseExtension(contentType: string, url: string) returns (ext: string)
    ensures ext == DownloadExtension(contentType, url)
  {
    var found: Option<string> := None;
    var i := 0;
    while i < |DOWNLOAD_EXTENSIONS|
      invariant i <= |DOWNLOAD_EXTENSIONS|
      invariant FirstMatchFrom(contentType, i) == FirstMatchFrom(contentType, 0)
    {
      if Contains(contentType, DOWNLOAD_EXTENSIONS[i].0) {
        found := Some(DOWNLOAD_EXTENSIONS[i].1);
        break;
      }
      i := i + 1;
    }
    if found.Some? {
      ext := found.value;
    } else {
      ext := Lower(Suffix(BeforeQuery(url)));
      if !Supported(ext) {
        ext := ".jpg";
      }
    }
  }

  /** The name of a temporary file: `prefix + token + suffix` in the temporary
      directory, `token` being the random part the tempfile module draws. */
  function TempFileName(tempDir: string, token: string, ext: string): (path: string)
    ensures StartsWith(path, tempDir + "/" + TEMP_PREFIX)
    ensures |ext| <= |path| && path[|path| - |ext|..] == ext
  {
    var path := tempDir + "/" + TEMP_PREFIX + token + ext;
    assert path[..|tempDir + "/" + TEMP_PREFIX|] == tempDir + "/" + TEMP_PREFIX;
    path
  }

  /** What the HTTP download returned: the content-type header ("" when the
      response has none), or a failure of the request, of `raise_for_status`
      or of the file write. */
  datatype Fetch = Fetched(contentType: string) | FetchFailed

  /** Lower-case ASCII letters and digits only. */
  predicate PlainLetters(s: string)
  {
    |s| == 0 || (('a' <= s[0] <= 'z' || '0' <= s[0] <= '9') && PlainLetters(s[1..]))
  }

  lemma {:induction false} PlainLettersLower(s: string)
    requires PlainLetters(s)
    ensures '/' !in s && '.' !in s && Lower(s) == s
    decreases |s|
  {
    if |s| > 0 {
      PlainLettersLower(s[1..]);
      assert s == [s[0]] + s[1..];
    }
  }

  /** A dot followed by lower-case letters and digits. */
  predicate ExtensionShaped(ext: string)
  {
    |ext| >= 2 && ext[0] == '.' && PlainLetters(ext[1..])
  }

  lemma ShapedExtension(ext: string)
    requires ExtensionShaped(ext)
    ensures '/' !in ext && '.' !in ext[1..]
    ensures Lower(ext) == ext
  {
    PlainLettersLower(ext[1..]);
    assert ext == [ext[0]] + ext[1..];
  }

  lemma SupportedListed(ext: string)
    requires Supported(ext)
    ensures ext == ".jpg" || ext == ".jpeg" || ext == ".png" || ext == ".gif" || ext == ".webp" || ext == ".mp4" || ext == ".mov"
  {
  }

  lemma SupportedShaped(ext: string)
    requires ext == ".jpg" || ext == ".jpeg" || ext == ".png" || ext == ".gif" || ext == ".webp" || ext == ".mp4" || ext == ".mov"
    ensures ExtensionShaped(ext)
  {
    if ext == ".jpg" { assert ExtensionShaped(".jpg"); }
    else if ext == ".jpeg" { assert ExtensionShaped(".jpeg"); }
    else if ext == ".png" { assert ExtensionShaped(".png"); }
    else if ext == ".gif" { assert ExtensionShaped(".gif"); }
    else if ext == ".webp" { assert ExtensionShaped(".webp"); }
    else if ext == ".mp4" { assert ExtensionShaped(".mp4"); }
    else { assert ExtensionShaped(".mov"); }
  }

  /** Every supported extension is a dot followed by letters and digits, already in lower case. */
  lemma SupportedShape(ext: string)
    requires Supported(ext)
    ensures |ext| >= 2 && ext[0] == '.' && '/' !in ext && '.' !in ext[1..]
    ensures Lower(ext) == ext
  {
    SupportedListed(ext);
    SupportedShaped(ext);
    ShapedExtension(ext);
  }

  /** A temporary file with a supported extension has that extension as its
      suffix and is classified by it. */
  lemma TempFileKind(tempDir: string, token: string, ext: string)
    requires '/' !in token && Supported(ext)
    ensures Suffix(TempFileName(tempDir, token, ext)) == ext
    ensures MediaType(TempFileName(tempDir, token, ext)) == KindOfExtension(ext)
  {
    SupportedShape(ext);
    TempPrefixPlain();
    var stem := TEMP_PREFIX + token;
    assert '/' !in stem;
    assert TempFileName(tempDir, token, ext) == tempDir + "/" + stem + ext;
    SuffixOfJoined(tempDir, stem, ext);
    StoredFileKind(tempDir, stem, ext);
  }

  /** A downloaded file is never of unknown type: its name ends in the chosen
      extension, which is always supported, so `_get_media_type` recognises it
      (the random token of a temporary name holds no '/'). */
  lemma DownloadedMediaIsKnown(tempDir: string, token: string, contentType: string, url: string)
    requires '/' !in token
    ensures var ext := DownloadExtension(contentType, url);
      && Suffix(TempFileName(tempDir, token, ext)) == ext
      && MediaType(TempFileName(tempDir, token, ext)) == KindOfExtension(ext) != Unknown
  {
    TempFileKind(tempDir, token, DownloadExtension(contentType, url));
  }

  // ---------------------------------------------------------------- uploads

  /** The outcomes of the I/O `upload_media` performs, as inputs: the
      download, the temporary directory and random token of its file, whether
      the chosen path exists, and the media id the tweepy upload returned
      (None when it raised). */
  datatype MediaEnv = MediaEnv(fetch: Fetch, tempDir: string, token: string,
                               fileExists: bool, uploadedId: Option<nat>)

  /** The tweepy upload call `upload_media` makes for a file. */
  datatype UploadCall = NoUpload | ImageUpload(path: string) | ChunkedUpload(path: string, kind: ChunkedType)

  /** What `upload_media` did, and the media id it returned. */
  datatype Upload = Upload(call: UploadCall, mediaId: Option<nat>)

  predicate IsRemote(source: string)
  {
    !StartsWith(source, "file://") && (StartsWith(source, "http://") || StartsWith(source, "https://"))
  }

  /** The local path `upload_media` goes on with: a `file://` source loses its
      first 7 characters, an http(s) source is downloaded (None when that
      fails), anything else is taken as a path. */
  function LocalPath(source: string, env: MediaEnv): (path: Option<string>)
    ensures path.None? <==> IsRemote(source) && env.fetch.FetchFailed?
  {
    if StartsWith(source, "file://") then Some(source[7..])
    else if IsRemote(source) then
      match env.fetch
      case Fetched(contentType) =>
        Some(TempFileName(env.tempDir, env.token, DownloadExtension(contentType, source)))
      case FetchFailed => None
    else Some(source)
  }

  /** The files `upload_media` adds to the temporary-file list. */
  function Downloads(enabled: bool, source: string, env: MediaEnv): (added: seq<string>)
    ensures |added| <= 1
    ensures |added| == 1 <==> enabled && IsRemote(source) && env.fetch.Fetched?
    ensures |added| == 1 ==> Some(added[0]) == LocalPath(source, env)
  {
    if enabled && IsRemote(source) && env.fetch.Fetched? then [LocalPath(source, env).value] else []
  }

  /** The dispatch on media type: videos and GIFs go through the chunked
      upload, other images through the simple one, unknown types nowhere; a
      missing file is not uploaded. */
  function UploadCallFor(path: string, fileExists: bool): (call: UploadCall)
    ensures call.NoUpload? <==> !fileExists || MediaType(path) == Unknown
    ensures call.ChunkedUpload? <==> fileExists && MediaType(path) in {Video, Gif}
    ensures call.ChunkedUpload? ==> call == ChunkedUpload(path, ChunkedUploadType(path))
    ensures call.ImageUpload? ==> call == ImageUpload(path) && MediaType(path) == Image
  {
    if !fileExists then NoUpload
    else match MediaType(path)
      case Video => ChunkedUpload(path, ChunkedUploadType(path))
      case Gif => ChunkedUpload(path, ChunkedUploadType(path))
      case Image => ImageUpload(path)
      case Unknown => NoUpload
  }

  /** `upload_media(source)`: nothing when the service is disabled or no local
      file is obtained; otherwise the dispatch above, returning the id of the
      upload it made. */
  function UploadResult(enabled: bool, source: string, env: MediaEnv): (u: Upload)
    ensures !enabled ==> u == Upload(NoUpload, None)
    ensures u.mediaId.Some? ==> !u.call.NoUpload? && u.mediaId == env.uploadedId
    ensures !u.call.NoUpload? ==> u.mediaId == env.uploadedId
    ensures enabled && LocalPath(source, env).None? ==> u == Upload(NoUpload, None)
    ensures enabled && LocalPath(source, env).Some? ==>
      u.call == UploadCallFor(LocalPath(source, env).value, env.fileExists)
  {
    if !enabled then Upload(NoUpload, None)
    else match LocalPath(source, env)
      case None => Upload(NoUpload, None)
      case Some(path) =>
        var call := UploadCallFor(path, env.fileExists);
        Upload(call, if call.NoUpload? then None else env.uploadedId)
  }

  /** A `file://` source names the file after the scheme: exactly the 7
      characters of "file://" are stripped. */
  lemma FileSchemeStripped(path: string, env: MediaEnv)
    ensures LocalPath("file://" + path, env) == Some(path)
  {
    assert ("file://" + path)[..7] == "file://";
    assert ("file://" + path)[7..] == path;
  }

  /** A source without a scheme this service knows is used as a path unchanged. */
  lemma PlainPathKept(source: string, env: MediaEnv)
    requires !StartsWith(source, "file://") && !StartsWith(source, "http://") && !StartsWith(source, "https://")
    ensures LocalPath(source, env) == Some(source)
  {
  }

  /** A local file of unknown type is never uploaded. */
  lemma UnknownLocalFileNotUploaded(path: string, env: MediaEnv)
    requires !StartsWith(path, "file://") && !StartsWith(path, "http://") && !StartsWith(path, "https://")
    requires MediaType(path) == Unknown
    ensures UploadResult(true, path, env) == Upload(NoUpload, None)
  {
    PlainPathKept(path, env);
  }

  /** A successfully downloaded file that exists is always uploaded, through
      the chunked upload exactly when its extension is a video one or ".gif". */
  lemma DownloadedMediaIsUploaded(source: string, env: MediaEnv)
    requires IsRemote(source) && env.fetch.Fetched? && env.fileExists
    requires '/' !in env.token
    ensures var ext := DownloadExtension(env.fetch.contentType, source);
      var u := UploadResult(true, source, env);
      && !u.call.NoUpload?
      && (u.call.ChunkedUpload? <==> ext in SUPPORTED_VIDEO_TYPES || ext == ".gif")
  {
    var ext := DownloadExtension(env.fetch.contentType, source);
    var path := TempFileName(env.tempDir, env.token, ext);
    assert LocalPath(source, env) == Some(path);
    DownloadedMediaIsKnown(env.tempDir, env.token, env.fetch.contentType, source);
    ExistingMediaUploaded(path);
  }

  /** An existing file of a known type is uploaded, chunked exactly when it is
      a video or a GIF. */
  lemma ExistingMediaUploaded(path: string)
    requires MediaType(path) != Unknown
    ensures !UploadCallFor(path, true).NoUpload?
    ensures UploadCallFor(path, true).ChunkedUpload? <==> MediaType(path) == Video || MediaType(path) == Gif
  {
  }

  // ---------------------------------------------------------------- tweeting

  /** The arguments of `post`. */
  datatype TweetCall = TweetCall(content: string, mediaUrl: Option<string>, mediaPath: Option<string>)

  /** What `create_tweet` is called with. */
  datatype TweetRequest = TweetRequest(text: string, mediaIds: Option<seq<nat>>)

  /** How `create_tweet` answered, or the exception it (or the code around
      it) raised. */
  datatype TweetReply =
    | Created(tweetId: string)
    | Forbidden(message: string)            // tweepy.errors.Forbidden
    | Unauthorized(message: string)         // tweepy.errors.Unauthorized
    | TooManyRequests(message: string)      // tweepy.errors.TooManyRequests
    | TwitterServerError(message: string)   // tweepy.errors.TwitterServerError
    | OtherTweepyError(message: string)     // any other tweepy.errors.TweepyException
    | UnexpectedError(message: string)      // an exception from outside tweepy

  /** The dictionary `post` returns: success with the tweet's id, URL, length
      and whether media was attached, or failure with an error message. */
  datatype TweetResult =
    | Published(postId: string, url: string, charCount: nat, hasMedia: bool)
    | NotPublished(error: string)

  /** Both inputs of one invocation of `post`. */
  datatype AttemptEnv = AttemptEnv(media: MediaEnv, reply: TweetReply)

  /** `media_url or media_path` */
  function MediaSourceOf(call: TweetCall): (source: Option<string>)
    ensures Truthy(source) <==> Truthy(call.mediaUrl) || Truthy(call.mediaPath)
    ensures Truthy(call.mediaUrl) ==> source == call.mediaUrl
    ensures !Truthy(call.mediaUrl) ==> source == call.mediaPath
  {
    if Truthy(call.mediaUrl) then call.mediaUrl else call.mediaPath
  }

  /** `[media_id] if media_id else None`: an id of 0 is falsy. */
  function MediaIds(mediaId: Option<nat>): (ids: Option<seq<nat>>)
    ensures ids.Some? <==> mediaId.Some? && mediaId.value != 0
    ensures ids.Some? ==> ids.value == [mediaId.value]
  {
    if mediaId.Some? && mediaId.value != 0 then Some([mediaId.value]) else None
  }

  /** The request an enabled `post` sends: the truncated text, and the
      uploaded media id when a media source was given and its upload returned one. */
  function AttemptRequest(call: TweetCall, media: MediaEnv): (req: TweetRequest)
    ensures req.text == TweetText(call.content) && |req.text| <= MAX_TWEET_LENGTH
    ensures req.mediaIds.Some? ==> Truthy(MediaSourceOf(call))
    ensures !Truthy(MediaSourceOf(call)) ==> req.mediaIds.None?
    ensures Truthy(MediaSourceOf(call)) ==>
      req.mediaIds == MediaIds(UploadResult(true, MediaSourceOf(call).value, media).mediaId)
  {
    var source := MediaSourceOf(call);
    var ids := if Truthy(source) then MediaIds(UploadResult(true, source.value, media).mediaId) else None;
    TweetRequest(TweetText(call.content), ids)
  }

  /** Media reaches the tweet: when the source names an existing file of a
      known type and the upload returns a non-zero id, the request carries
      exactly that id. */
  lemma UploadedMediaAttached(call: TweetCall, media: MediaEnv, id: nat)
    requires Truthy(MediaSourceOf(call))
    requires LocalPath(MediaSourceOf(call).value, media).Some?
    requires MediaType(LocalPath(MediaSourceOf(call).value, media).value) != Unknown
    requires media.fileExists && media.uploadedId == Some(id) && id != 0
    ensures AttemptRequest(call, media).mediaIds == Some([id])
  {
    var path := LocalPath(MediaSourceOf(call).value, media).value;
    ExistingMediaUploaded(path);
  }

  /** How `post` turns the reply to its request into a result or an
      exception: Forbidden, Unauthorized and non-tweepy errors are failures
      it returns; the remaining tweepy errors are raised again for the retry
      wrapper to see. */
  function ReplyOutcome(req: TweetRequest, reply: TweetReply): (outcome: Attempt<TweetResult>)
    ensures outcome.Raised? <==> reply.TooManyRequests? || reply.TwitterServerError? || reply.OtherTweepyError?
    ensures outcome.Raised? ==> outcome.failure.message == reply.message
    ensures outcome.Raised? ==> (outcome.failure.RateLimited? <==> reply.TooManyRequests?)
    ensures outcome.Raised? ==> (outcome.failure.ServerError? <==> reply.TwitterServerError?)
    ensures outcome.Ok? && outcome.value.Published? <==> reply.Created?
    ensures reply.Created? ==>
      outcome == Ok(Published(reply.tweetId, STATUS_URL_PREFIX + reply.tweetId, |req.text|, req.mediaIds.Some?))
    ensures reply.Forbidden? ==> outcome == Ok(NotPublished(ForbiddenMessage(reply.message)))
    ensures reply.Unauthorized? ==> outcome == Ok(NotPublished(AUTH_ERROR))
    ensures reply.UnexpectedError? ==> outcome == Ok(NotPublished(reply.message))
  {
    match reply
    case Created(id) => Ok(Published(id, STATUS_URL_PREFIX + id, |req.text|, req.mediaIds.Some?))
    case Forbidden(m) => Ok(NotPublished(ForbiddenMessage(m)))
    case Unauthorized(_) => Ok(NotPublished(AUTH_ERROR))
    case TooManyRequests(m) => Raised(RateLimited(m))
    case TwitterServerError(m) => Raised(ServerError(m))
    case OtherTweepyError(m) => Raised(Other(m))
    case UnexpectedError(m) => Ok(NotPublished(m))
  }

  /** One invocation of the undecorated `post`. */
  function AttemptOutcome(enabled: bool, call: TweetCall, env: AttemptEnv): (outcome: Attempt<TweetResult>)
    ensures !enabled ==> outcome == Ok(NotPublished(NOT_CONFIGURED_ERROR))
    ensures outcome.Ok? && outcome.value.Published? ==>
      && outcome.value.charCount <= MAX_TWEET_LENGTH
      && outcome.value.url == STATUS_URL_PREFIX + outcome.value.postId
      && (outcome.value.hasMedia ==> Truthy(MediaSourceOf(call)))
  {
    if !enabled then Ok(NotPublished(NOT_CONFIGURED_ERROR))
    else ReplyOutcome(AttemptRequest(call, env.media), env.reply)
  }

  function AttemptOutcomes(enabled: bool, call: TweetCall, envs: seq<AttemptEnv>): (outcomes: seq<Attempt<TweetResult>>)
    ensures |outcomes| == |envs|
    ensures forall i :: 0 <= i < |envs| ==> outcomes[i] == AttemptOutcome(enabled, call, envs[i])
  {
    seq(|envs|, i requires 0 <= i < |envs| => AttemptOutcome(enabled, call, envs[i]))
  }

  /** The decorated `post`: its i-th invocation meets the inputs `envs[i]`. */
  function PostWithRetry(enabled: bool, call: TweetCall, envs: seq<AttemptEnv>): Run<TweetResult>
    requires POST_MAX_RETRIES <= |envs|
  {
    Retry.Retry(AttemptOutcomes(enabled, call, envs), POST_MAX_RETRIES, POST_BASE_DELAY_MS, POST_MAX_DELAY_MS)
  }

  /** A disabled service answers at once, without a retry and without a wait. */
  lemma PostNotConfigured(call: TweetCall, envs: seq<AttemptEnv>)
    requires POST_MAX_RETRIES <= |envs|
    ensures PostWithRetry(false, call, envs) == Run(Returned(NotPublished(NOT_CONFIGURED_ERROR)), 1, [])
  {
    var outcomes := AttemptOutcomes(false, call, envs);
    RetryReturnsFirstSuccess(outcomes, POST_MAX_RETRIES, POST_BASE_DELAY_MS, POST_MAX_DELAY_MS, 0);
  }

  /** A reply `post` handles itself — a tweet, Forbidden, Unauthorized or a
      non-tweepy error — ends the call after one invocation, without a wait. */
  lemma PostSettlesWithoutRetry(call: TweetCall, envs: seq<AttemptEnv>)
    requires POST_MAX_RETRIES <= |envs|
    requires !(envs[0].reply.TooManyRequests? || envs[0].reply.TwitterServerError? || envs[0].reply.OtherTweepyError?)
    ensures PostWithRetry(true, call, envs)
      == Run(Returned(AttemptOutcome(true, call, envs[0]).value), 1, [])
  {
    var outcomes := AttemptOutcomes(true, call, envs);
    RetryReturnsFirstSuccess(outcomes, POST_MAX_RETRIES, POST_BASE_DELAY_MS, POST_MAX_DELAY_MS, 0);
  }

  /** Two server errors and then a tweet: three invocations, after waits of
      2 and 4 seconds. */
  lemma PostRecoversFromServerErrors(call: TweetCall, envs: seq<AttemptEnv>)
    requires POST_MAX_RETRIES <= |envs|
    requires envs[0].reply.TwitterServerError? && envs[1].reply.TwitterServerError? && envs[2].reply.Created?
    ensures var run := PostWithRetry(true, call, envs);
      && run.invocations == 3
      && run.waits == [2000, 4000]
      && run.result.Returned? && run.result.value.Published?
      && run.result.value.postId == envs[2].reply.tweetId
  {
    var outcomes := AttemptOutcomes(true, call, envs);
    assert outcomes[0] == Raised(ServerError(envs[0].reply.message));
    assert outcomes[1] == Raised(ServerError(envs[1].reply.message));
    assert outcomes[2].Ok? && outcomes[2].value.Published?;
    assert outcomes[2].value.postId == envs[2].reply.tweetId;
    SucceedsAfterTwoServerErrors(outcomes);
  }

  lemma SucceedsAfterTwoServerErrors(outcomes: seq<Attempt<TweetResult>>)
    requires POST_MAX_RETRIES <= |outcomes|
    requires outcomes[0].Raised? && outcomes[0].failure.ServerError?
    requires outcomes[1].Raised? && outcomes[1].failure.ServerError?
    requires outcomes[2].Ok?
    ensures Retry.Retry(outcomes, POST_MAX_RETRIES, POST_BASE_DELAY_MS, POST_MAX_DELAY_MS)
      == Run(Returned(outcomes[2].value), 3, [2000, 4000])
  {
    RetryReturnsFirstSuccess(outcomes, POST_MAX_RETRIES, POST_BASE_DELAY_MS, POST_MAX_DELAY_MS, 2);
    assert Backoff(outcomes[0].failure, 0, POST_BASE_DELAY_MS, POST_MAX_DELAY_MS) == 2000;
    assert Backoff(outcomes[1].failure, 1, POST_BASE_DELAY_MS, POST_MAX_DELAY_MS) == 4000 by {
      assert Pow(2, 1) == 2;
    }
  }

  /** Rate limited on every attempt: waits of 2, 6 and 18 seconds — one after
      the last attempt too — and the last rate-limit error is raised. */
  lemma PostRateLimitedThroughout(call: TweetCall, envs: seq<AttemptEnv>)
    requires POST_MAX_RETRIES <= |envs|
    requires forall i :: 0 <= i < POST_MAX_RETRIES ==> envs[i].reply.TooManyRequests?
    ensures var run := PostWithRetry(true, call, envs);
      && run.invocations == 3
      && run.waits == [2000, 6000, 18000]
      && run.result == Reraised(RateLimited(envs[2].reply.message))
  {
    var outcomes := AttemptOutcomes(true, call, envs);
    assert outcomes[0] == Raised(RateLimited(envs[0].reply.message));
    assert outcomes[1] == Raised(RateLimited(envs[1].reply.message));
    assert outcomes[2] == Raised(RateLimited(envs[2].reply.message));
    RateLimitedThrice(outcomes);
  }

  lemma RateLimitedThrice(outcomes: seq<Attempt<TweetResult>>)
    requires POST_MAX_RETRIES <= |outcomes|
    requires forall i :: 0 <= i < POST_MAX_RETRIES ==> outcomes[i].Raised? && outcomes[i].failure.RateLimited?
    ensures Retry.Retry(outcomes, POST_MAX_RETRIES, POST_BASE_DELAY_MS, POST_MAX_DELAY_MS)
      == Run(Reraised(outcomes[2].failure), 3, [2000, 6000, 18000])
  {
    RetryRaisesLastError(outcomes, POST_MAX_RETRIES, POST_BASE_DELAY_MS, POST_MAX_DELAY_MS);
    assert Backoff(outcomes[0].failure, 0, POST_BASE_DELAY_MS, POST_MAX_DELAY_MS) == 2000;
    assert Backoff(outcomes[1].failure, 1, POST_BASE_DELAY_MS, POST_MAX_DELAY_MS) == 6000 by {
      assert Pow(3, 1) == 3;
    }
    assert Backoff(outcomes[2].failure, 2, POST_BASE_DELAY_MS, POST_MAX_DELAY_MS) == 18000 by {
      assert Pow(3, 2) == 9;
    }
  }

  /** Other tweepy errors on every attempt: waits of 2 and 4 seconds, none
      after the last attempt, whose error is raised. */
  lemma PostFailsOnOtherErrors(call: TweetCall, envs: seq<AttemptEnv>)
    requires POST_MAX_RETRIES <= |envs|
    requires forall i :: 0 <= i < POST_MAX_RETRIES ==> envs[i].reply.OtherTweepyError?
    ensures var run := PostWithRetry(true, call, envs);
      && run.invocations == 3
      && run.waits == [2000, 4000]
      && run.result == Reraised(Other(envs[2].reply.message))
  {
    var outcomes := AttemptOutcomes(true, call, envs);
    assert outcomes[0] == Raised(Other(envs[0].reply.message));
    assert outcomes[1] == Raised(Other(envs[1].reply.message));
    assert outcomes[2] == Raised(Other(envs[2].reply.message));
    OtherErrorsThrice(outcomes);
  }

  lemma OtherErrorsThrice(outcomes: seq<Attempt<TweetResult>>)
    requires POST_MAX_RETRIES <= |outcomes|
    requires forall i :: 0 <= i < POST_MAX_RETRIES ==> outcomes[i].Raised? && outcomes[i].failure.Other?
    ensures Retry.Retry(outcomes, POST_MAX_RETRIES, POST_BASE_DELAY_MS, POST_MAX_DELAY_MS)
      == Run(Reraised(outcomes[2].failure), 3, [2000, 4000])
  {
    RetryRaisesLastError(outcomes, POST_MAX_RETRIES, POST_BASE_DELAY_MS, POST_MAX_DELAY_MS);
    assert Backoff(outcomes[0].failure, 0, POST_BASE_DELAY_MS, POST_MAX_DELAY_MS) == 2000;
    assert Backoff(outcomes[1].failure, 1, POST_BASE_DELAY_MS, POST_MAX_DELAY_MS) == 4000 by {
      assert Pow(2, 1) == 2;
    }
  }

  /** Whatever the replies, a tweet `post` reports is at most 280 characters
      long and its URL is the status URL of its id; at most three invocations
      are made and no wait exceeds 30 seconds. */
  lemma PostPublishedWithinLimits(enabled: bool, call: TweetCall, envs: seq<AttemptEnv>)
    requires POST_MAX_RETRIES <= |envs|
    ensures var run := PostWithRetry(enabled, call, envs);
      && 1 <= run.invocations <= POST_MAX_RETRIES
      && (forall i :: 0 <= i < |run.waits| ==> run.waits[i] <= POST_MAX_DELAY_MS)
      && (run.result.Returned? && run.result.value.Published? ==>
            run.result.value.charCount <= MAX_TWEET_LENGTH
            && run.result.value.url == STATUS_URL_PREFIX + run.result.value.postId)
  {
    var outcomes := AttemptOutcomes(enabled, call, envs);
    RetryBounded(outcomes, POST_MAX_RETRIES, POST_BASE_DELAY_MS, POST_MAX_DELAY_MS);
    RetryReturnsAnOutcome(outcomes, POST_MAX_RETRIES, POST_BASE_DELAY_MS, POST_MAX_DELAY_MS);
  }

  // ---------------------------------------------------------------- the service object

  /** A `TwitterService` instance: whether it is enabled, and the temporary
      files its downloads created that are still to be removed. */
  class Service {
    const enabled: bool
    var tempFiles: seq<string>

    /** `enabled` holds when all four credentials are set and the clients could
        be built (`clientsReady` false stands for `_initialize_clients` failing). */
    constructor (credentials: Credentials, clientsReady: bool)
      ensures enabled == (Configured(credentials) && clientsReady)
      ensures tempFiles == []
    {
      enabled := Configured(credentials) && clientsReady;
      tempFiles := [];
    }

    /** `download_media(url)`: on success the file name is recorded as a
        temporary file and returned. */
    method DownloadMedia(url: string, fetch: Fetch, tempDir: string, token: string) returns (path: Option<string>)
      modifies this
      ensures fetch.FetchFailed? ==> path == None && tempFiles == old(tempFiles)
      ensures fetch.Fetched? ==>
        && path == Some(TempFileName(tempDir, token, DownloadExtension(fetch.contentType, url)))
        && tempFiles == old(tempFiles) + [path.value]
    {
      match fetch
      case FetchFailed =>
        path := None;
      case Fetched(contentType) =>
        var ext := ChooseExtension(contentType, url);
        var name := TempFileName(tempDir, token, ext);
        tempFiles := tempFiles + [name];
        path := Some(name);
    }

    /** `upload_media(source)` */
    method UploadMedia(source: string, env: MediaEnv) returns (u: Upload)
      modifies this
      ensures u == UploadResult(enabled, source, env)
      ensures tempFiles == old(tempFiles) + Downloads(enabled, source, env)
    {
      if !enabled {
        return Upload(NoUpload, None);
      }
      var path := source;
      if StartsWith(source, "file://") {
        path := source[7..];
      } else if StartsWith(source, "http://") || StartsWith(source, "https://") {
        var downloaded := DownloadMedia(source, env.fetch, env.tempDir, env.token);
        if downloaded.None? {
          return Upload(NoUpload, None);
        }
        path := downloaded.value;
      }
      if !env.fileExists {
        return Upload(NoUpload, None);
      }
      var kind := MediaType(path);
      if kind == Video || kind == Gif {
        u := Upload(ChunkedUpload(path, ChunkedUploadType(path)), env.uploadedId);
      } else if kind == Image {
        u := Upload(ImageUpload(path), env.uploadedId);
      } else {
        u := Upload(NoUpload, None);
      }
    }

    /** `_cleanup_temp_files`: every recorded file is to be removed, and the
        list is emptied. */
    method CleanupTempFiles() returns (removed: seq<string>)
      modifies this
      ensures removed == old(tempFiles)
      ensures tempFiles == []
    {
      removed := tempFiles;
      tempFiles := [];
    }

    /** One invocation of the undecorated `post`: the request it sends (none
        when disabled), its outcome, and the temporary files cleaned up in its
        `finally` clause whatever the outcome. */
    method PostAttempt(call: TweetCall, env: AttemptEnv) returns (outcome: Attempt<TweetResult>, sent: Option<TweetRequest>)
      modifies this
      ensures outcome == AttemptOutcome(enabled, call, env)
      ensures sent == if enabled then Some(AttemptRequest(call, env.media)) else None
      ensures tempFiles == if enabled then [] else old(tempFiles)
    {
      if !enabled {
        return Ok(NotPublished(NOT_CONFIGURED_ERROR)), None;
      }
      var text := TweetText(call.content);
      var mediaIds: Option<seq<nat>> := None;
      var source := MediaSourceOf(call);
      if Truthy(source) {
        var u := UploadMedia(source.value, env.media);
        mediaIds := MediaIds(u.mediaId);
      }
      var request := TweetRequest(text, mediaIds);
      sent := Some(request);
      outcome := ReplyOutcome(request, env.reply);
      var _ := CleanupTempFiles();
    }

    /** The decorated `post`: the retry wrapper over its invocations; each
        enabled invocation ends by emptying the temporary-file list. */
    method Post(call: TweetCall, envs: seq<AttemptEnv>) returns (result: Settled<TweetResult>, invocations: nat, waits: seq<nat>)
      requires POST_MAX_RETRIES <= |envs|
      modifies this
      ensures Run(result, invocations, waits) == PostWithRetry(enabled, call, envs)
      ensures tempFiles == if enabled then [] else old(tempFiles)
    {
      result, invocations, waits := RetryWrapper(AttemptOutcomes(enabled, call, envs),
                                                 POST_MAX_RETRIES, POST_BASE_DELAY_MS, POST_MAX_DELAY_MS);
      if enabled {
        var _ := CleanupTempFiles();
      }
    }
  }

  // ---------------------------------------------------------------- proof helpers
  // Small facts, mostly about literal text, kept apart so that the solver
  // checks each on its own; the lemmas above use them as steps.

  lemma LowerDuplicate()
    ensures Lower("Duplicate") == "duplicate"
  {
  }

  lemma ForbiddenPieceA()
    ensures 'l' !in "Access forbidden" && 'L' !in "Access forbidden" && '4' !in "Access forbidden"
  {
  }

  lemma ForbiddenPieceB()
    ensures 'l' !in " - check your" && 'L' !in " - check your" && '4' !in " - check your"
  {
  }

  lemma ForbiddenPieceC()
    ensures 'l' !in " app permissions" && 'L' !in " app permissions" && '4' !in " app permissions"
  {
  }

  lemma TempPrefixPlain()
    ensures '/' !in TEMP_PREFIX && '.' !in TEMP_PREFIX && |TEMP_PREFIX| > 0
  {
  }
}

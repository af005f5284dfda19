/** The posts API of the dashboard backend: the in-memory post table and id
    counter, creating and deleting posts, publishing a stored post or a new
    one directly through the Twitter service, the upload endpoint's checks,
    and the dashboard statistics. The service's answer (what `post`
    returned, or that it raised) and the current time are inputs. */
module PostsApi {
  import opened Strings
  import opened Retry
  import opened TwitterService

  /** The four statuses a post record can have. */
  datatype Status = Draft | Scheduled | Posted | Failed

  /** A post record. Records made by the direct publish endpoint have no
      `image_url`, `video_url`, `scheduled_time`, `word_count` or `char_count`
      entry: those read as None here, as `dict.get` reads them. */
  datatype Post = Post(
    id: nat,
    content: string,
    imageUrl: Option<string>,
    videoUrl: Option<string>,
    platforms: seq<string>,
    status: Status,
    scheduledTime: Option<string>,
    wordCount: Option<nat>,
    charCount: Option<nat>,
    createdAt: string,
    postedTime: Option<string>,
    tweetId: Option<string>,
    tweetUrl: Option<string>,
    errorMessage: Option<string>)

  /** The body of a create request. */
  datatype PostCreate = PostCreate(content: string, imageUrl: Option<string>,
                                   videoUrl: Option<string>, scheduledTime: Option<string>)

  /** An endpoint's answer: a body, or the HTTP error it raises. An exception
      escaping the endpoint is FastAPI's 500 answer. */
  datatype Reply<+T> = Answer(body: T) | HttpError(code: nat, detail: string)

  const NOT_FOUND := "Post not found"
  const ALREADY_PUBLISHED := "Post already published"
  const INTERNAL_ERROR := "Internal Server Error"
  const INVALID_FILE_TYPE := "Invalid file type"
  const MAX_UPLOAD_IMAGE_SIZE := 5 * 1024 * 1024
  const MAX_UPLOAD_VIDEO_SIZE := 512 * 1024 * 1024

  /** The answer of both publish endpoints: whether the tweet went out, the
      record as it now is, and the service's result. */
  datatype PublishBody = PublishBody(success: bool, post: Post, twitterResult: TweetResult)

  // ---------------------------------------------------------------- records

  /** What every record in the table satisfies: posted exactly when it has a
      posted time, a tweet id and a tweet URL; failed exactly when it has an
      error message; scheduled only with a scheduled time. */
  predicate WellFormed(p: Post)
  {
    && (p.status == Posted <==> p.postedTime.Some?)
    && (p.status == Posted <==> p.tweetId.Some?)
    && (p.status == Posted <==> p.tweetUrl.Some?)
    && (p.status == Failed <==> p.errorMessage.Some?)
    && (p.status == Scheduled ==> Truthy(p.scheduledTime))
  }

  /** The record `create_post` builds with id `id`. */
  function NewPost(id: nat, req: PostCreate, now: string): (p: Post)
    ensures WellFormed(p)
    ensures p.id == id && p.content == req.content && p.createdAt == now
    ensures p.status == (if Truthy(req.scheduledTime) then Scheduled else Draft)
    ensures p.postedTime.None? && p.tweetId.None? && p.tweetUrl.None? && p.errorMessage.None?
    ensures p.charCount == Some(|req.content|)
    ensures p.imageUrl == req.imageUrl && p.videoUrl == req.videoUrl && p.scheduledTime == req.scheduledTime
    ensures p.platforms == ["twitter"]
    ensures p.wordCount == Some(WordCount(req.content)) && 2 * p.wordCount.value <= |req.content| + 1
  {
    WordCountBounds(req.content);
    Post(id, req.content, req.imageUrl, req.videoUrl, ["twitter"],
         if Truthy(req.scheduledTime) then Scheduled else Draft,
         req.scheduledTime, Some(WordCount(req.content)), Some(|req.content|),
         now, None, None, None, None)
  }

  /** `post.get("image_url") or post.get("video_url")` */
  function MediaSource(p: Post): (source: Option<string>)
    ensures Truthy(p.imageUrl) ==> source == p.imageUrl
    ensures !Truthy(p.imageUrl) ==> source == p.videoUrl
  {
    if Truthy(p.imageUrl) then p.imageUrl else p.videoUrl
  }

  /** How `publish_post` updates a record with the service's result: on
      success it is posted at `now` with the tweet's id and URL and no error;
      on failure it is failed with the service's error, the rest untouched. */
  function Settle(p: Post, r: TweetResult, now: string): (q: Post)
    ensures q.id == p.id && q.content == p.content && q.createdAt == p.createdAt
    ensures q.imageUrl == p.imageUrl && q.videoUrl == p.videoUrl && q.scheduledTime == p.scheduledTime
    ensures r.Published? ==>
      && q.status == Posted && q.postedTime == Some(now)
      && q.tweetId == Some(r.postId) && q.tweetUrl == Some(r.url) && q.errorMessage.None?
    ensures r.NotPublished? ==>
      && q.status == Failed && q.errorMessage == Some(r.error)
      && q.postedTime == p.postedTime && q.tweetId == p.tweetId && q.tweetUrl == p.tweetUrl
    ensures q.platforms == p.platforms && q.wordCount == p.wordCount && q.charCount == p.charCount
  {
    match r
    case Published(postId, url, _, _) =>
      p.(status := Posted, postedTime := Some(now), tweetId := Some(postId), tweetUrl := Some(url),
         errorMessage := None)
    case NotPublished(error) =>
      p.(status := Failed, errorMessage := Some(error))
  }

  /** Settling a record that is not posted yet keeps it well formed: a failed
      attempt leaves no posted time or tweet behind. */
  lemma SettleKeepsWellFormed(p: Post, r: TweetResult, now: string)
    requires WellFormed(p) && p.status != Posted
    ensures WellFormed(Settle(p, r, now))
    ensures Settle(p, r, now).status == Posted <==> r.Published?
  {
  }

  /** The record `publish_direct` builds with id `id` after the service answered `r`. */
  function DirectRecord(id: nat, content: string, r: TweetResult, now: string): (p: Post)
    ensures WellFormed(p)
    ensures p.id == id && p.content == content
    ensures p.status == Posted <==> r.Published?
    ensures p.postedTime.Some? <==> r.Published?
    ensures r.Published? ==> p.tweetId == Some(r.postId) && p.tweetUrl == Some(r.url) && p.errorMessage.None?
    ensures r.NotPublished? ==> p.errorMessage == Some(r.error)
    ensures p.imageUrl.None? && p.videoUrl.None? && p.wordCount.None? && p.charCount.None?
    ensures p.createdAt == now && p.platforms == ["twitter"] && p.scheduledTime.None?
    ensures r.Published? ==> p.postedTime == Some(now)
  {
    match r
    case Published(postId, url, _, _) =>
      Post(id, content, None, None, ["twitter"], Posted, None, None, None, now, Some(now),
           Some(postId), Some(url), None)
    case NotPublished(error) =>
      Post(id, content, None, None, ["twitter"], Failed, None, None, None, now, None,
           None, None, Some(error))
  }

  // ---------------------------------------------------------------- the table

  /** Ids strictly decrease along the table: each new record goes in front
      with a larger id than any before it. */
  predicate IdsDescending(posts: seq<Post>)
  {
    forall i, j :: 0 <= i < j < |posts| ==> posts[i].id > posts[j].id
  }

  /** Decreasing ids are pairwise distinct. */
  lemma DescendingIdsAreDistinct(posts: seq<Post>)
    requires IdsDescending(posts)
    ensures forall i, j :: 0 <= i < |posts| && 0 <= j < |posts| && i != j ==> posts[i].id != posts[j].id
  {
    forall i, j | 0 <= i < |posts| && 0 <= j < |posts| && i != j
      ensures posts[i].id != posts[j].id
    {
      if i < j {
        assert posts[i].id > posts[j].id;
      } else {
        assert posts[j].id > posts[i].id;
      }
    }
  }

  /** `next((p for p in POSTS_DB if p["id"] == post_id), None)` read as an
      index: the first record with that id, or the table's length. */
  function FindPost(posts: seq<Post>, postId: int): (k: nat)
    ensures k <= |posts|
    ensures k < |posts| ==> posts[k].id == postId
    ensures forall j :: 0 <= j < k ==> posts[j].id != postId
  {
    if |posts| == 0 then 0
    else if posts[0].id == postId then 0
    else 1 + FindPost(posts[1..], postId)
  }

  /** `[p for p in POSTS_DB if p["id"] != post_id]` */
  function Without(posts: seq<Post>, postId: int): (rest: seq<Post>)
    ensures |rest| <= |posts|
    ensures forall p :: p in rest <==> p in posts && p.id != postId
  {
    if |posts| == 0 then []
    else if posts[0].id == postId then Without(posts[1..], postId)
    else [posts[0]] + Without(posts[1..], postId)
  }

  /** Deleting keeps the relative order of what remains: filtering a
      concatenation filters each part. */
  lemma {:induction false} WithoutKeepsOrder(a: seq<Post>, b: seq<Post>, postId: int)
    ensures Without(a + b, postId) == Without(a, postId) + Without(b, postId)
    decreases |a|
  {
    if |a| > 0 {
      var ab := a + b;
      assert ab[0] == a[0] && ab[1..] == a[1..] + b;
      WithoutKeepsOrder(a[1..], b, postId);
      var r := Without(a[1..], postId) + Without(b, postId);
      if a[0].id == postId {
        assert Without(ab, postId) == r;
      } else {
        assert Without(ab, postId) == [a[0]] + r;
        assert [a[0]] + r == ([a[0]] + Without(a[1..], postId)) + Without(b, postId);
      }
    } else {
      assert a + b == b;
    }
  }

  /** Deleting an id no record has changes nothing. */
  lemma {:induction false} WithoutAbsent(posts: seq<Post>, postId: int)
    requires forall j :: 0 <= j < |posts| ==> posts[j].id != postId
    ensures Without(posts, postId) == posts
    decreases |posts|
  {
    if |posts| > 0 {
      WithoutAbsent(posts[1..], postId);
    }
  }

  /** Deleting keeps a bound every id is under. */
  lemma {:induction false} WithoutBelow(posts: seq<Post>, postId: int, bound: int)
    requires forall i :: 0 <= i < |posts| ==> posts[i].id < bound
    ensures forall i :: 0 <= i < |Without(posts, postId)| ==> Without(posts, postId)[i].id < bound
    decreases |posts|
  {
    if |posts| > 0 {
      WithoutBelow(posts[1..], postId, bound);
    }
  }

  /** Dropping the first record keeps ids decreasing. */
  lemma DescendingTail(posts: seq<Post>)
    requires |posts| > 0 && IdsDescending(posts)
    ensures IdsDescending(posts[1..])
  {
    forall i, j | 0 <= i < j < |posts| - 1 ensures posts[1..][i].id > posts[1..][j].id {
      assert posts[1..][i] == posts[i + 1] && posts[1..][j] == posts[j + 1];
    }
  }

  /** A record whose id is above every id of a decreasing table can go in front. */
  lemma DescendingCons(p: Post, rest: seq<Post>)
    requires IdsDescending(rest)
    requires forall i :: 0 <= i < |rest| ==> rest[i].id < p.id
    ensures IdsDescending([p] + rest)
  {
    var r := [p] + rest;
    forall i, j | 0 <= i < j < |r| ensures r[i].id > r[j].id {
      assert r[j] == rest[j - 1];
      if i > 0 {
        assert r[i] == rest[i - 1];
      }
    }
  }

  /** Deleting keeps ids decreasing. */
  lemma {:induction false} WithoutKeepsDescending(posts: seq<Post>, postId: int)
    requires IdsDescending(posts)
    ensures IdsDescending(Without(posts, postId))
    decreases |posts|
  {
    if |posts| > 0 {
      var tail := posts[1..];
      DescendingTail(posts);
      WithoutKeepsDescending(tail, postId);
      if posts[0].id != postId {
        assert forall i :: 0 <= i < |tail| ==> tail[i].id < posts[0].id;
        WithoutBelow(tail, postId, posts[0].id);
        DescendingCons(posts[0], Without(tail, postId));
      }
    }
  }

  /** The number of records with status `s`. */
  function Count(posts: seq<Post>, s: Status): (n: nat)
    ensures n <= |posts|
  {
    if |posts| == 0 then 0
    else Count(posts[1..], s) + (if posts[0].status == s then 1 else 0)
  }

  /** The statuses of the table, in order. */
  function Statuses(posts: seq<Post>): (r: seq<Status>)
    ensures |r| == |posts| && forall i :: 0 <= i < |posts| ==> r[i] == posts[i].status
  {
    seq(|posts|, i requires 0 <= i < |posts| => posts[i].status)
  }

  /** `Count` is the number of times the status occurs among the records'
      statuses, as `len([p for p in POSTS_DB if p["status"] == s])` counts it. */
  lemma {:induction false} CountIsMultiplicity(posts: seq<Post>, s: Status)
    ensures Count(posts, s) == multiset(Statuses(posts))[s]
    decreases |posts|
  {
    if |posts| > 0 {
      CountIsMultiplicity(posts[1..], s);
      assert Statuses(posts) == [posts[0].status] + Statuses(posts[1..]);
    }
  }

  /** Every record has exactly one of the four statuses. */
  lemma {:induction false} CountPartition(posts: seq<Post>)
    ensures Count(posts, Draft) + Count(posts, Scheduled) + Count(posts, Posted) + Count(posts, Failed) == |posts|
  {
    if |posts| > 0 {
      CountPartition(posts[1..]);
    }
  }

  /** The dashboard statistics. */
  datatype Stats = Stats(totalPosts: nat, postedPosts: nat, failedPosts: nat, scheduledPosts: nat,
                         connectedPlatforms: nat, twitterConnected: bool)

  /** `get_stats` over a table: the counts never add up to more than the
      total, which they reach exactly when no record is a draft. */
  function StatsOf(posts: seq<Post>, enabled: bool): (s: Stats)
    ensures s.totalPosts == |posts|
    ensures s.postedPosts == Count(posts, Posted) && s.failedPosts == Count(posts, Failed)
    ensures s.scheduledPosts == Count(posts, Scheduled)
    ensures s.postedPosts + s.failedPosts + s.scheduledPosts <= s.totalPosts
    ensures s.postedPosts + s.failedPosts + s.scheduledPosts == s.totalPosts <==> Count(posts, Draft) == 0
    ensures s.connectedPlatforms == (if enabled then 1 else 0) && s.twitterConnected == enabled
  {
    CountPartition(posts);
    Stats(|posts|, Count(posts, Posted), Count(posts, Failed), Count(posts, Scheduled),
          if enabled then 1 else 0, enabled)
  }

  // ---------------------------------------------------------------- uploads

  /** An uploaded file: its declared content type, its size in bytes, and
      the file name the client sent. */
  datatype UploadedFile = UploadedFile(contentType: Option<string>, size: nat, fileName: Option<string>)

  /** The answer of the upload endpoint. */
  datatype UploadBody = UploadBody(filePath: string, fileName: string, fileSize: nat,
                                   contentType: string, isVideo: bool)

  /** `file.content_type or ""` */
  function DeclaredType(contentType: Option<string>): string
  {
    if Truthy(contentType) then contentType.value else ""
  }

  predicate IsMedia(contentType: string)
  {
    StartsWith(contentType, "image/") || StartsWith(contentType, "video/")
  }

  /** The upload endpoint's extension for a content type, ".tmp" for any type
      it does not list. */
  function UploadExtension(contentType: string): (ext: string)
    ensures ext != ".tmp" ==> Supported(ext) && (contentType, ext) in DOWNLOAD_EXTENSIONS
    ensures ext == ".tmp" <==>
      contentType !in ["image/jpeg", "image/png", "image/gif", "image/webp", "video/mp4", "video/quicktime"]
  {
    if contentType == "image/jpeg" then ".jpg"
    else if contentType == "image/png" then ".png"
    else if contentType == "image/gif" then ".gif"
    else if contentType == "image/webp" then ".webp"
    else if contentType == "video/mp4" then ".mp4"
    else if contentType == "video/quicktime" then ".mov"
    else ".tmp"
  }

  /** The size limit for a content type: 512 MiB for videos, 5 MiB for anything else. */
  function SizeLimit(contentType: string): nat
  {
    if StartsWith(contentType, "video/") then MAX_UPLOAD_VIDEO_SIZE else MAX_UPLOAD_IMAGE_SIZE
  }

  /** The name the upload endpoint stores a file under. */
  function UploadFileName(file: UploadedFile, stamp: string): string
  {
    "upload_" + stamp + "_" + (if Truthy(file.fileName) then file.fileName.value else "media")
      + UploadExtension(DeclaredType(file.contentType))
  }

  /** `upload_media` of the posts API: a file is accepted exactly when its
      content type is an image or video type and its size is within that
      kind's limit (a size equal to the limit passes); it is then stored in
      the upload directory under a name ending in the type's extension. */
  function AcceptUpload(uploadDir: string, file: UploadedFile, stamp: string): (r: Reply<UploadBody>)
    ensures var ct := DeclaredType(file.contentType);
      && (r.Answer? <==> IsMedia(ct) && file.size <= SizeLimit(ct))
      && (!IsMedia(ct) ==> r == HttpError(400, "Invalid file type: " + ct + ". Use image or video files."))
      && (IsMedia(ct) && file.size > SizeLimit(ct) ==>
            r == HttpError(400, "File too large. Max: " + (if StartsWith(ct, "video/") then "512MB" else "5MB")))
      && (r.Answer? ==>
            && r.body.isVideo == StartsWith(ct, "video/")
            && r.body.fileSize == file.size && r.body.contentType == ct
            && r.body.fileName == UploadFileName(file, stamp)
            && r.body.filePath == uploadDir + "/" + r.body.fileName)
  {
    var ct := DeclaredType(file.contentType);
    if !IsMedia(ct) then HttpError(400, "Invalid file type: " + ct + ". Use image or video files.")
    else
      var isVideo := StartsWith(ct, "video/");
      if file.size > SizeLimit(ct) then HttpError(400, "File too large. Max: " + (if isVideo then "512MB" else "5MB"))
      else
        var name := UploadFileName(file, stamp);
        Answer(UploadBody(uploadDir + "/" + name, name, file.size, ct, isVideo))
  }

  /** The size limit is inclusive: a file of exactly the limit is accepted,
      one byte more is refused. */
  lemma UploadLimitInclusive(uploadDir: string, ct: string, name: Option<string>, stamp: string)
    requires IsMedia(ct)
    ensures AcceptUpload(uploadDir, UploadedFile(Some(ct), SizeLimit(ct), name), stamp).Answer?
    ensures AcceptUpload(uploadDir, UploadedFile(Some(ct), SizeLimit(ct) + 1, name), stamp).HttpError?
  {
    assert ct != "" by {
      assert |ct| >= 6;
    }
  }

  /** What the Twitter service makes of each extension the upload endpoint
      gives: it names the kind the content type names, and a chunked upload
      sends the content type back. ".tmp" is of no known kind. */
  lemma UploadExtensionKind(ct: string)
    ensures ct in ["video/mp4", "video/quicktime"] ==>
      KindOfExtension(UploadExtension(ct)) == Video && ChunkedTypeOfExtension(UploadExtension(ct)).mimeType == ct
    ensures ct == "image/gif" ==>
      KindOfExtension(UploadExtension(ct)) == Gif && ChunkedTypeOfExtension(UploadExtension(ct)).mimeType == ct
    ensures ct in ["image/jpeg", "image/png", "image/webp"] ==> KindOfExtension(UploadExtension(ct)) == Image
    ensures UploadExtension(ct) == ".tmp" ==> KindOfExtension(UploadExtension(ct)) == Unknown
  {
  }

  /** A stored upload is classified by the Twitter service as its content type
      says, and a chunked upload of it is sent with that very type: the
      service and this endpoint agree on every type the endpoint names. A type
      the endpoint does not name is stored as ".tmp", which the service does
      not upload. */
  lemma StoredUploadKind(uploadDir: string, file: UploadedFile, stamp: string)
    requires AcceptUpload(uploadDir, file, stamp).Answer?
    requires file.fileName.Some? ==> '/' !in file.fileName.value
    requires '/' !in stamp
    ensures var ct := DeclaredType(file.contentType);
      var path := AcceptUpload(uploadDir, file, stamp).body.filePath;
      && (ct in ["video/mp4", "video/quicktime"] ==> MediaType(path) == Video && ChunkedUploadType(path).mimeType == ct)
      && (ct == "image/gif" ==> MediaType(path) == Gif && ChunkedUploadType(path).mimeType == ct)
      && (ct in ["image/jpeg", "image/png", "image/webp"] ==> MediaType(path) == Image)
      && (UploadExtension(ct) == ".tmp" ==> MediaType(path) == Unknown)
  {
    var ct := DeclaredType(file.contentType);
    var ext := UploadExtension(ct);
    var name := if Truthy(file.fileName) then file.fileName.value else "media";
    var stem := "upload_" + stamp + "_" + name;
    SlashFreeStemParts();
    assert '/' !in stem;
    var path := AcceptUpload(uploadDir, file, stamp).body.filePath;
    assert path == uploadDir + "/" + stem + ext;
    if ext == ".tmp" {
      TmpShape();
    } else {
      SupportedShape(ext);
    }
    StoredFileKind(uploadDir, stem, ext);
    UploadExtensionKind(ct);
  }

  // ---------------------------------------------------------------- direct publishing

  /** The file part of a direct publish request. */
  datatype DirectFile = DirectFile(contentType: Option<string>)

  /** `publish_direct`'s own, shorter extension table. */
  function DirectExtension(contentType: string): (ext: string)
    ensures ext != ".tmp" ==> Supported(ext) && (contentType, ext) in DOWNLOAD_EXTENSIONS
    ensures ext != ".tmp" ==> ext == UploadExtension(contentType)
    ensures ext == ".tmp" <==> contentType !in ["image/jpeg", "image/png", "image/gif", "video/mp4"]
  {
    if contentType == "image/jpeg" then ".jpg"
    else if contentType == "image/png" then ".png"
    else if contentType == "image/gif" then ".gif"
    else if contentType == "video/mp4" then ".mp4"
    else ".tmp"
  }

  /** Where `publish_direct` stores the file it is given. */
  function DirectMediaPath(uploadDir: string, contentType: string, stamp: string): string
  {
    uploadDir + "/" + "direct_" + stamp + DirectExtension(contentType)
  }

  /** The direct endpoint accepts WebP images and QuickTime videos but stores
      them as ".tmp" in the (absolute) upload directory, so the Twitter service finds no known media type and
      the tweet goes out as text only. */
  lemma DirectDropsUnlistedMedia(uploadDir: string, contentType: string, stamp: string, env: MediaEnv)
    requires contentType in ["image/webp", "video/quicktime"]
    requires '/' !in stamp && |uploadDir| > 0 && uploadDir[0] == '/'
    ensures IsMedia(contentType)
    ensures MediaType(DirectMediaPath(uploadDir, contentType, stamp)) == Unknown
    ensures UploadResult(true, DirectMediaPath(uploadDir, contentType, stamp), env) == Upload(NoUpload, None)
  {
    var path := DirectMediaPath(uploadDir, contentType, stamp);
    DirectPathUnknown(uploadDir, contentType, stamp);
    AbsoluteStart(uploadDir, "/" + "direct_" + stamp + DirectExtension(contentType));
    AbsoluteIsLocal(path);
    UnknownLocalFileNotUploaded(path, env);
  }

  /** An absolute path carries none of the schemes `upload_media` looks for. */
  lemma AbsoluteIsLocal(path: string)
    requires |path| > 0 && path[0] == '/'
    ensures !StartsWith(path, "file://") && !StartsWith(path, "http://") && !StartsWith(path, "https://")
  {
    assert !StartsWith(path, "file://") by { if |path| >= 7 { assert path[..7][0] == '/'; } }
    assert !StartsWith(path, "http://") by { if |path| >= 7 { assert path[..7][0] == '/'; } }
    assert !StartsWith(path, "https://") by { if |path| >= 8 { assert path[..8][0] == '/'; } }
  }

  lemma DirectPathUnknown(uploadDir: string, contentType: string, stamp: string)
    requires contentType in ["image/webp", "video/quicktime"] && '/' !in stamp
    ensures IsMedia(contentType)
    ensures MediaType(DirectMediaPath(uploadDir, contentType, stamp)) == Unknown
  {
    DirectTmp(contentType);
    DirectPathJoined(uploadDir, contentType, stamp);
    TmpFileUnknown(uploadDir, "direct_" + stamp);
  }

  /** A stored ".tmp" file is of no known media type. */
  lemma TmpFileUnknown(dir: string, stem: string)
    requires |stem| > 0 && '/' !in stem
    ensures MediaType(dir + "/" + stem + ".tmp") == Unknown
  {
    TmpShape();
    StoredFileKind(dir, stem, ".tmp");
    TmpKind();
  }

  // ---------------------------------------------------------------- the store

  /** `POSTS_DB` and `POST_ID_COUNTER`, with the upload directory. */
  class PostStore {
    var posts: seq<Post>
    var nextId: nat
    const uploadDir: string

    /** Ids are positive, below the counter and decreasing along the table;
        every record is well formed. */
    ghost predicate Valid()
      reads this
    {
      && 1 <= nextId
      && (forall i :: 0 <= i < |posts| ==> 1 <= posts[i].id < nextId && WellFormed(posts[i]))
      && IdsDescending(posts)
    }

    /** The empty table, with the counter at 1. */
    constructor (uploadDir: string)
      ensures Valid()
      ensures posts == [] && nextId == 1 && this.uploadDir == uploadDir
    {
      posts := [];
      nextId := 1;
      this.uploadDir := uploadDir;
    }

    /** `create_post`: the new record takes the counter as its id and goes in
        front of the table; the counter moves on by one. */
    method Create(req: PostCreate, now: string) returns (post: Post)
      requires Valid()
      modifies this
      ensures Valid()
      ensures post == NewPost(old(nextId), req, now)
      ensures posts == [post] + old(posts)
      ensures nextId == old(nextId) + 1
    {
      post := NewPost(nextId, req, now);
      posts := [post] + posts;
      nextId := nextId + 1;
    }

    /** `delete_post`: every record with the id goes; it succeeds whether or
        not there was one. */
    method Delete(postId: int) returns (success: bool)
      requires Valid()
      modifies this
      ensures Valid()
      ensures success
      ensures posts == Without(old(posts), postId)
      ensures nextId == old(nextId)
    {
      WithoutKeepsDescending(posts, postId);
      posts := Without(posts, postId);
      success := true;
    }

    /** `publish_post(post_id)`. An unknown id gives 404, a posted record 400,
        a disabled service 400, and none of them touches the table. Otherwise
        the service is called with the record's content and its image URL, or
        failing that its video URL; `outcome` is what that call ended with.
        If it raised, the endpoint fails with 500 and the table is unchanged;
        if it returned, the record is settled with the result. */
    method Publish(postId: int, enabled: bool, outcome: Settled<TweetResult>, now: string)
      returns (response: Reply<PublishBody>, call: Option<TweetCall>)
      requires Valid()
      modifies this
      ensures Valid()
      ensures nextId == old(nextId)
      ensures var k := FindPost(old(posts), postId);
        && (k == |old(posts)| ==> response == HttpError(404, NOT_FOUND) && posts == old(posts) && call.None?)
        && (k < |old(posts)| && old(posts)[k].status == Posted ==>
              response == HttpError(400, ALREADY_PUBLISHED) && posts == old(posts) && call.None?)
        && (k < |old(posts)| && old(posts)[k].status != Posted && !enabled ==>
              response == HttpError(400, NOT_CONFIGURED_ERROR) && posts == old(posts) && call.None?)
        && (k < |old(posts)| && old(posts)[k].status != Posted && enabled ==>
              && call == Some(TweetCall(old(posts)[k].content, MediaSource(old(posts)[k]), None))
              && (!outcome.Returned? ==> response == HttpError(500, INTERNAL_ERROR) && posts == old(posts))
              && (outcome.Returned? ==>
                    var settled := Settle(old(posts)[k], outcome.value, now);
                    && posts == old(posts)[k := settled]
                    && response == Answer(PublishBody(outcome.value.Published?, settled, outcome.value))))
    {
      var k := FindPost(posts, postId);
      if k == |posts| {
        return HttpError(404, NOT_FOUND), None;
      }
      var post := posts[k];
      if post.status == Posted {
        return HttpError(400, ALREADY_PUBLISHED), None;
      }
      if !enabled {
        return HttpError(400, NOT_CONFIGURED_ERROR), None;
      }
      call := Some(TweetCall(post.content, MediaSource(post), None));
      if !outcome.Returned? {
        return HttpError(500, INTERNAL_ERROR), call;
      }
      var result := outcome.value;
      var settled := Settle(post, result, now);
      SettleKeepsWellFormed(post, result, now);
      posts := posts[k := settled];
      response := Answer(PublishBody(result.Published?, settled, result));
    }

    /** `publish_direct(content, file)`. A disabled service gives 400, a file
        whose type is neither image nor video 400, and neither touches the
        table. Otherwise the file is stored under a "direct_" name and the
        service is called with the content and that path; if it raised the
        endpoint fails with 500 and nothing is recorded, if it returned, a
        settled record takes the counter as its id and goes in front. */
    method PublishDirect(content: string, file: Option<DirectFile>, enabled: bool,
                         outcome: Settled<TweetResult>, stamp: string, now: string)
      returns (response: Reply<PublishBody>, call: Option<TweetCall>)
      requires Valid()
      modifies this
      ensures Valid()
      ensures !enabled ==>
        response == HttpError(400, NOT_CONFIGURED_ERROR) && posts == old(posts) && nextId == old(nextId) && call.None?
      ensures enabled && file.Some? && !IsMedia(DeclaredType(file.value.contentType)) ==>
        response == HttpError(400, INVALID_FILE_TYPE) && posts == old(posts) && nextId == old(nextId) && call.None?
      ensures enabled && (file.Some? ==> IsMedia(DeclaredType(file.value.contentType))) ==>
        && call == Some(TweetCall(content, None,
                                  if file.Some? then Some(DirectMediaPath(uploadDir, DeclaredType(file.value.contentType), stamp))
                                  else None))
        && (!outcome.Returned? ==>
              response == HttpError(500, INTERNAL_ERROR) && posts == old(posts) && nextId == old(nextId))
        && (outcome.Returned? ==>
              var record := DirectRecord(old(nextId), content, outcome.value, now);
              && posts == [record] + old(posts)
              && nextId == old(nextId) + 1
              && response == Answer(PublishBody(outcome.value.Published?, record, outcome.value)))
    {
      if !enabled {
        return HttpError(400, NOT_CONFIGURED_ERROR), None;
      }
      var mediaPath: Option<string> := None;
      if file.Some? {
        var contentType := DeclaredType(file.value.contentType);
        if !IsMedia(contentType) {
          return HttpError(400, INVALID_FILE_TYPE), None;
        }
        mediaPath := Some(DirectMediaPath(uploadDir, contentType, stamp));
      }
      call := Some(TweetCall(content, None, mediaPath));
      if !outcome.Returned? {
        return HttpError(500, INTERNAL_ERROR), call;
      }
      var result := outcome.value;
      var record := DirectRecord(nextId, content, result, now);
      posts := [record] + posts;
      nextId := nextId + 1;
      response := Answer(PublishBody(result.Published?, record, result));
    }
  }

  /** Once a publish succeeds, the record is final: the id still finds the
      same record, now posted, so publishing it again is refused with 400. */
  lemma PublishedIsFinal(posts: seq<Post>, postId: int, r: TweetResult, now: string)
    requires FindPost(posts, postId) < |posts| && r.Published?
    ensures var k := FindPost(posts, postId);
      var after := posts[k := Settle(posts[k], r, now)];
      FindPost(after, postId) == k && after[k].status == Posted
  {
    var k := FindPost(posts, postId);
    var after := posts[k := Settle(posts[k], r, now)];
    assert forall j :: 0 <= j < |after| && j != k ==> after[j] == posts[j];
    assert after[k].id == postId;
  }

  // ---------------------------------------------------------------- proof helpers
  // Small facts, mostly about literal text, kept apart so that the solver
  // checks each on its own; the lemmas above use them as steps.

  lemma SlashFreeStemParts()
    ensures '/' !in "upload_" && '/' !in "_" && '/' !in "media" && '/' !in "direct_"
  {
  }

  lemma TmpKind()
    ensures KindOfExtension(".tmp") == Unknown
  {
  }

  lemma TmpShape()
    ensures |".tmp"| >= 2 && ".tmp"[0] == '.' && '/' !in ".tmp" && '.' !in ".tmp"[1..]
    ensures Lower(".tmp") == ".tmp"
  {
    assert ExtensionShaped(".tmp");
    ShapedExtension(".tmp");
  }

  lemma DirectTmp(contentType: string)
    requires contentType in ["image/webp", "video/quicktime"]
    ensures IsMedia(contentType) && DirectExtension(contentType) == ".tmp"
  {
  }

  lemma DirectPathJoined(uploadDir: string, contentType: string, stamp: string)
    requires DirectExtension(contentType) == ".tmp" && '/' !in stamp
    ensures DirectMediaPath(uploadDir, contentType, stamp) == uploadDir + "/" + ("direct_" + stamp) + ".tmp"
    ensures |"direct_" + stamp| > 0 && '/' !in "direct_" + stamp
  {
    SlashFreeStemParts();
  }

  lemma AbsoluteStart(dir: string, rest: string)
    requires |dir| > 0 && dir[0] == '/'
    ensures (dir + rest)[0] == '/'
  {
  }
}

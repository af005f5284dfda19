# SMM backend: post store, publishing and Twitter service decisions

This project models the two sequential cores of the social-media dashboard
backend and proves properties of them in Dafny.

- **The posts API** (`backend/main.py`, module `PostsApi` in `posts_api.dfy`).
  The in-memory table of post records (`POSTS_DB`) and its id counter
  (`POST_ID_COUNTER`) are the class `PostStore`, with a `seq<Post>` field and a
  `nat` counter. The store covers creating a post (draft or scheduled),
  deleting one, publishing a stored post, publishing a new post directly, and
  the dashboard statistics. The upload endpoint's checks are a pure function:
  content type, size limit, extension and stored name. The class invariant
  `Valid` keeps five facts:
  - ids are positive and below the counter;
  - ids strictly decrease along the table, so they are unique;
  - a record is posted exactly when it has a posted time, tweet id and tweet URL;
  - a record is failed exactly when it has an error message;
  - a scheduled record has a truthy scheduled time.

  Every rejected call leaves the table and the counter unchanged.
- **The Twitter service** (`backend/twitter_service.py`, modules `Retry` in
  `retry.dfy` and `TwitterService` in `twitter_service.dfy`). This covers:
  - the `retry_async` decorator, as a loop method that consumes one outcome
    per invocation and records its waits in milliseconds;
  - credential completeness;
  - media classification by extension;
  - the chunked-upload type table;
  - the download extension search;
  - the dispatch in `upload_media`;
  - the truncation of tweets and the mapping of Forbidden and Unauthorized
    errors;
  - the temporary-file list of a service object (class `Service`).
- **The Python string operations** these rely on (module `Strings` in
  `strings.dfy`): truthiness, `startswith`, `in`, `lower`, `rfind`,
  `PurePath.name` and `.suffix`, `split('?')[0]` and `split()`.

Every network, tweepy, file-system and clock call becomes an input. Each
invocation of `post` meets its own `AttemptEnv`, holding the download's
content type, the temporary file's random token, whether the file exists,
the id the upload returned, and the reply of `create_tweet`. The publish
endpoints take the settled service call (`Settled<TweetResult>`: returned a
result, or raised) and the timestamps as parameters.

## Model

| member | source | states |
|---|---|---|
| Retry.Backoff | backend/twitter_service.py:52-72 | the wait after a failure on attempt i is min(base·3^i, max) for a rate limit and min(base·2^i, max) for any other error; never above max |
| Retry.BackoffGrows | backend/twitter_service.py:54-69 | waits for one kind of failure never shrink with the attempt number, and until the cap each step multiplies the wait by 3 (rate limit) or 2 (other) |
| Retry.RetryWrapper | backend/twitter_service.py:43-80 | the decorator's `for attempt` loop, with its early return, its three except branches and its break, computes exactly the run `Retry` defines: result, number of invocations, and waits in order |
| Retry.RetryBounded | backend/twitter_service.py:48-80 | at most max_retries invocations, none exactly when max_retries is 0; at most one wait per invocation; every wait is at most max_delay |
| Retry.RetryReturnsFirstSuccess | backend/twitter_service.py:48-72 | when attempt k is the first to succeed, its value is returned unchanged after k+1 invocations, with one wait per earlier failure given by that failure's backoff |
| Retry.RetryRaisesLastError | backend/twitter_service.py:66-80 | when no attempt succeeds: exactly max_retries invocations, the last error re-raised (the generic error when max_retries is 0), a wait after every failure except a generic error on the last attempt |
| Retry.RetryReturnsAnOutcome | backend/twitter_service.py:48-50 | a value the wrapper returns is the value some invocation returned |
| TwitterService.MissingCredentials | backend/twitter_service.py:126-139 | the reported list is empty iff all four credentials are truthy, and names exactly the variables that are unset or empty |
| TwitterService.Service.constructor | backend/twitter_service.py:102-124 | the service is enabled iff all four credentials are truthy and the clients could be built; it starts with no temporary files |
| TwitterService.KindOfExtension | backend/twitter_service.py:274-285 | unknown iff the lower-cased suffix is in neither list; gif iff ".gif" (ahead of the image list that also holds it); video iff ".mp4" or ".mov" |
| TwitterService.ChunkedTypeOfExtension | backend/twitter_service.py:306-320 | category "tweet_gif" exactly for ".gif" (sent as image/gif); video/quicktime exactly for ".mov"; every other extension, ".mp4" and unknown ones alike, is sent as video/mp4 in category "tweet_video" |
| TwitterService.ChunkedUploadType | backend/twitter_service.py:299-320 | the chunked upload's category is "tweet_gif" exactly when `_get_media_type` says gif |
| TwitterService.TweetText | backend/twitter_service.py:415-419 | text over 280 characters becomes its first 277 followed by "...", exactly 280 long; shorter text is unchanged |
| TwitterService.TweetTextStable | backend/twitter_service.py:416-418 | truncating an already truncated text changes nothing |
| TwitterService.ForbiddenMessage | backend/twitter_service.py:458-464 | a message mentioning "duplicate" in any case maps to the duplicate-content message; otherwise one holding "403" maps to the access-forbidden message; otherwise it is kept |
| TwitterService.ForbiddenMessageStable | backend/twitter_service.py:458-464 | mapping an already mapped message leaves it unchanged: the duplicate message mentions "duplicate", the access-forbidden message holds neither trigger |
| TwitterService.FirstMatchFrom | backend/twitter_service.py:241-245 | the index of the first table entry whose content type occurs in the header, with no earlier entry occurring; the table length when none does |
| TwitterService.DownloadExtension | backend/twitter_service.py:228-252 | the chosen extension is always supported: the first matching table entry's, else the URL's lower-cased suffix with the query removed if supported, else ".jpg" |
| TwitterService.ChooseExtension | backend/twitter_service.py:241-252 | the search loop with `break` and its fallbacks returns the extension `DownloadExtension` defines |
| TwitterService.TempFileName | backend/twitter_service.py:255-259 | a temporary file name starts with the temporary directory, a "/" and "twitter_", and ends with the chosen extension |
| TwitterService.DownloadedMediaIsKnown | backend/twitter_service.py:241-259 | a downloaded file's suffix is the chosen extension, so `_get_media_type` never calls it unknown |
| TwitterService.Service.DownloadMedia | backend/twitter_service.py:211-272 | a failed download returns None and records nothing; a successful one returns the temporary file's name and appends it to the temporary-file list |
| TwitterService.LocalPath | backend/twitter_service.py:354-366 | no local path exactly when an http(s) download fails |
| TwitterService.FileSchemeStripped | backend/twitter_service.py:356-358 | a "file://" source names the file after exactly 7 stripped characters |
| TwitterService.PlainPathKept | backend/twitter_service.py:354-366 | a source with none of the three schemes is used as the path unchanged |
| TwitterService.Downloads | backend/twitter_service.py:361-366 | `upload_media` adds one temporary file exactly when enabled with an http(s) source whose download succeeds, and it is the path used |
| TwitterService.UploadCallFor | backend/twitter_service.py:368-384 | a missing or unknown-type file is not uploaded; videos and GIFs go through the chunked upload with their chunked type; other images through the simple upload |
| TwitterService.UploadResult | backend/twitter_service.py:340-384 | a disabled service, or an http(s) source whose download failed, uploads nothing; a media id is returned exactly when an upload call was made and the upload gave one, and it is the id that call returned |
| TwitterService.UnknownLocalFileNotUploaded | backend/twitter_service.py:373-384 | a local file of unknown type is never uploaded |
| TwitterService.DownloadedMediaIsUploaded | backend/twitter_service.py:361-384 | a downloaded file that exists is always uploaded, chunked exactly when its extension is a video one or ".gif" |
| TwitterService.Service.UploadMedia | backend/twitter_service.py:340-384 | the method makes the upload `UploadResult` defines and adds to the temporary-file list exactly what `Downloads` names |
| TwitterService.MediaSourceOf | backend/twitter_service.py:423 | the media URL is used when truthy, otherwise the media path as given; there is a source iff one of them is truthy |
| TwitterService.MediaIds | backend/twitter_service.py:427-433 | media ids are attached iff the upload returned a non-zero id, and they are that single id |
| TwitterService.UploadedMediaAttached | backend/twitter_service.py:422-430 | when the media source resolves to an existing file of a known type and the upload returns a non-zero id, the tweet request carries exactly that id |
| TwitterService.AttemptRequest | backend/twitter_service.py:414-431 | the tweet sent has the truncated text (at most 280 characters); with no media source it carries no media, and with one it carries the upload's id exactly when that id is truthy |
| TwitterService.ReplyOutcome | backend/twitter_service.py:443-491 | rate-limit, server and other tweepy errors are re-raised for the retry wrapper with their message; Forbidden, Unauthorized and non-tweepy errors are returned as failures with their mapped message; a created tweet returns its id, status URL, length and media flag |
| TwitterService.AttemptOutcome | backend/twitter_service.py:407-491 | a disabled service returns the not-configured failure; a published result is at most 280 characters long, its URL is the status URL of its id, and it has media only if a source was given |
| TwitterService.PostNotConfigured | backend/twitter_service.py:386-412 | a disabled service answers after one invocation, with no wait, with the not-configured failure |
| TwitterService.PostSettlesWithoutRetry | backend/twitter_service.py:458-491 | a tweet, Forbidden, Unauthorized or non-tweepy error on the first invocation ends the call with no retry and no wait |
| TwitterService.PostRecoversFromServerErrors | backend/twitter_service.py:59-64 | two server errors and then a tweet: three invocations, waits of 2 s and 4 s, and the tweet is returned |
| TwitterService.PostRateLimitedThroughout | backend/twitter_service.py:52-57 | rate limited three times: waits of 2 s, 6 s and 18 s (including one after the last attempt), and the last rate-limit error is raised |
| TwitterService.PostFailsOnOtherErrors | backend/twitter_service.py:66-80 | other tweepy errors three times: waits of 2 s and 4 s, none after the last attempt, and its error is raised |
| TwitterService.PostPublishedWithinLimits | backend/twitter_service.py:386-456 | for any replies: 1 to 3 invocations, every wait at most 30 s, and a returned tweet is at most 280 characters long with the status URL of its id |
| TwitterService.Service.CleanupTempFiles | backend/twitter_service.py:497-507 | every recorded temporary file is to be removed, and the list ends empty |
| TwitterService.Service.PostAttempt | backend/twitter_service.py:407-495 | one invocation of `post` sends `AttemptRequest` (nothing when disabled), ends with `AttemptOutcome`, and its `finally` leaves the temporary-file list empty when enabled |
| TwitterService.Service.Post | backend/twitter_service.py:386-495 | the decorated `post` runs the retry wrapper (3 attempts, 2 s base, 30 s cap) over the invocations' outcomes; when enabled the temporary-file list ends empty |
| PostsApi.PostStore.constructor | backend/main.py:53-54 | the table starts empty with the counter at 1 |
| PostsApi.NewPost | backend/main.py:143-158 | a new record is scheduled iff its scheduled time is truthy, else a draft; content, media URLs and scheduled time are copied from the request and the platforms are ["twitter"]; it has no posted time, tweet or error; its character count is the content length, and its word count is the number of whitespace-separated words, at most (length+1)/2 |
| PostsApi.PostStore.Create | backend/main.py:138-163 | the new record takes the counter as its id and goes in front of the unchanged table; the counter grows by exactly 1; the invariant is kept |
| PostsApi.DescendingIdsAreDistinct | backend/main.py:141-161 | ids that decrease along the table are pairwise distinct |
| PostsApi.Without | backend/main.py:170 | a record remains after deleting an id iff it was in the table and has another id |
| PostsApi.WithoutKeepsOrder | backend/main.py:170 | deletion filters each part of a concatenation separately, so the rest keep their relative order |
| PostsApi.WithoutAbsent | backend/main.py:166-171 | deleting an id that no record has leaves the table as it was |
| PostsApi.WithoutKeepsDescending | backend/main.py:170 | deletion keeps ids strictly decreasing |
| PostsApi.PostStore.Delete | backend/main.py:166-171 | every record with the id is removed, the rest keep their order, the counter is untouched, and success is reported even for an unknown id |
| PostsApi.FindPost | backend/main.py:242 | the index of the first record with the id, none earlier having it; the table length when no record has it |
| PostsApi.MediaSource | backend/main.py:260 | the image URL is used when truthy, otherwise the video URL |
| PostsApi.Settle | backend/main.py:268-277 | on success the record is posted now with the tweet's id and URL and no error; on failure it is failed with the service's error, its posted time and tweet untouched; every other field (id, content, media URLs, platforms, scheduled time, counts, creation time) stays as it was |
| PostsApi.SettleKeepsWellFormed | backend/main.py:268-277 | settling a record that is not yet posted keeps it well formed, and makes it posted iff the tweet went out |
| PostsApi.PostStore.Publish | backend/main.py:235-283 | an unknown id gives 404, a posted record 400, a disabled service 400, all with no change; otherwise the service gets the content and media source; a raise gives 500 with no change; a result settles exactly that record |
| PostsApi.PublishedIsFinal | backend/main.py:247-248 | after a successful publish the id still finds the same record, now posted, so a second publish is refused |
| PostsApi.DirectRecord | backend/main.py:337-348 | the direct record is created now on platform "twitter", is posted iff the tweet went out, with the posted time now when it did and none otherwise, carries the tweet's id and URL or the error, and has no media, schedule or count entries |
| PostsApi.PostStore.PublishDirect | backend/main.py:286-356 | a disabled service or a non-media file gives 400 with no change; otherwise the service gets the content and stored path; a raise gives 500 and records nothing; a result adds a settled record in front with the counter's id |
| PostsApi.DirectExtension | backend/main.py:314-320 | only JPEG, PNG, GIF and MP4 get an extension, each its own (the pair is in the service's content-type table: .jpg, .png, .gif, .mp4) and the same one the upload endpoint gives; every other type gets ".tmp" |
| PostsApi.DirectDropsUnlistedMedia | backend/main.py:306-328 | a WebP or QuickTime file passes the direct endpoint's type check but is stored as ".tmp" (in an absolute upload directory), so the service calls it unknown and does not upload it |
| PostsApi.UploadExtension | backend/main.py:205-214 | each of the six listed types gets its own extension (the pair is in the service's content-type table: .jpg, .png, .gif, .webp, .mp4, .mov); every other type gets ".tmp" |
| PostsApi.AcceptUpload | backend/main.py:176-230 | accepted iff the type starts with image/ or video/ and the size is within 512 MiB (video) or 5 MiB (otherwise); each refusal gives its 400 message; an accepted file is stored under "upload_" + stamp + "_" + name + extension |
| PostsApi.UploadLimitInclusive | backend/main.py:195-203 | a file of exactly the limit is accepted, one byte more is refused |
| PostsApi.StoredUploadKind | backend/main.py:205-218 | a stored upload is classified by the service as its content type says, and a chunked upload sends that same type back; a ".tmp" file is of unknown type |
| PostsApi.CountIsMultiplicity | backend/main.py:366-369 | a status count is the number of records carrying that status (its multiplicity among the records' statuses) |
| PostsApi.CountPartition | backend/main.py:366-369 | every record has exactly one of the four statuses |
| PostsApi.StatsOf | backend/main.py:361-378 | the total is the table length and each of posted, failed and scheduled is the number of records with that status; the three never exceed the total and reach it exactly when there are no drafts; the platform count is 1 iff the service is enabled |
| Strings.WordCountBounds | backend/main.py:151 | `len(content.split())` is at most (length+1)/2, and 0 exactly when the content is all whitespace |
| Strings.BeforeQuery | backend/twitter_service.py:249 | the URL up to its first '?', holding no '?' itself |
| Strings.Suffix | backend/twitter_service.py:276 | a non-empty suffix is a dot followed by at least one character, with no further dot and no separator, that ends the file name without being all of it; the suffix is empty exactly when the name has no dot after its first character or ends in a dot |

## Left out

- FastAPI routing, CORS, `HTTPException` plumbing and the `/`, `/api/health`, `/api/twitter/*`, `/api/posts` (list) and `/api/platforms/status` endpoints. HTTP errors are the `Reply` datatype, and an exception escaping an endpoint is the 500 answer FastAPI gives.
- `get_status` and every tweepy call (`create_tweet`, `media_upload`, `chunked_upload`, `verify_credentials`): foreign code. Their answers are inputs (`TweetReply`, `MediaEnv.uploadedId`).
- httpx downloads, temporary-file creation, file writes, `os.path.exists`, `os.path.getsize` and `os.remove`. They are I/O. The outcomes of the Twitter service's downloads and existence checks are inputs (`Fetch`, `MediaEnv.fileExists`, the random token of a temporary name). The file writes of the upload and direct-publish endpoints are assumed to succeed: a failed write there (an HTTP 500 with no record and no tweet) is not modelled. `CleanupTempFiles` returns the files it would remove rather than removing them.
- `asyncio.sleep`: waits are recorded, in whole milliseconds rather than float seconds.
- `datetime.utcnow()`: timestamps are opaque string parameters. `PublishDirect` uses one `now` for `created_at` and `posted_time`, which the source reads from two separate clock calls.
- `print` logging, `load_dotenv`/`os.getenv` (credentials are a parameter), the module-level singleton and the `__main__` blocks.
- TwitterService.Service.Post: it runs the retry wrapper over the pure per-invocation outcomes and then empties the temporary-file list. It does not call `PostAttempt` once per invocation; the end state is the same, because every enabled invocation ends by emptying the list.
- PostsApi.PostStore.Publish and PublishDirect take the settled outcome of the service call as a parameter instead of calling `Service.Post`. They return the request they make of the service (`call`), so which content and media source are sent is stated.
- Strings.Lower: only ASCII letters are lower-cased, where `str.lower` also folds non-ASCII letters. The texts lower-cased here (Forbidden messages, paths, URLs) are arbitrary, but each result is only compared with ASCII text ("duplicate" and the supported extensions). The only non-ASCII characters `str.lower` maps to ASCII letters are U+212A KELVIN SIGN (to "k") and U+0130 (to "i" followed by a combining dot U+0307). No compared text holds a "k" or a U+0307, so no comparison comes out differently.
- Strings.Suffix and Strings.FileName: `PurePath` normalisation is not modelled: trailing and repeated separators, "." components, and the Windows flavour.
- The JSON shape of records: a direct record lacks the `image_url`, `video_url`, `scheduled_time`, `word_count` and `char_count` keys; here they are None.
- Guards the code does not have:
  - publishing has no per-post in-flight guard, so two concurrent publishes of one draft can both call the service;
  - publishing has no health gate beyond the service's own configuration check;
  - create accepts empty content;
  - deleting an unknown id succeeds;
  - a failed record's error message can be empty, since the service returns `str(e)`, so the invariant says "set", not "non-empty".

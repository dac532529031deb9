# YouTube downloader: analysis, quality lists and download progress

This project models the core of a small YouTube video downloader in Dafny and
proves properties of that model. The downloader has two interchangeable back ends and one page.

- **The Express server** (`server/routes.ts`, `server/storage.ts`):
  - `/api/analyze` turns the extraction library's format list into a
    deduplicated, ranked list of qualities. Each format gets a resolution
    label, a size (exact or estimated), a reduce that picks one format per
    label, and a sort by height. The result is cached in the in-memory store.
  - `/api/start-download` and `/api/progress/:id` keep polled progress
    records in that store.
  - The download handler sanitises the title into a file name. It registers
    the session in `activeDownloads`, and its stream callbacks update the
    session and the store chunk by chunk.
- **The serverless function** (`api/server.js`) offers the same endpoints
  with its own state:
  - a `videoCache` and a `sessions` map;
  - a quality list built by two loops that keep the first format of each
    label (a `Set` of labels seen), then sorted in place by the number the
    label's digits spell;
  - stream callbacks that mark sessions `downloading` and `completed` and
    never remove them.
- **The page** (`client/src/pages/home.tsx`) does the URL check and names
  the quality labels for display. It keeps state that the analyse, download,
  poll and reset handlers update.

Each module maps to these source lines:

| module | file | source | flavour |
|---|---|---|---|
| `Common` | common.dfy | server/routes.ts:40-58, 217-218; api/server.js:208-216 | JavaScript truthiness, `Math.round` of a quotient, decimal rendering, used by both servers |
| `Schema` | schema.dfy | shared/schema.ts; server/routes.ts:106-115; api/server.js:96-105 | the shared records and the VideoInfo builder (duration text, last thumbnail) |
| `Storage` | storage.dfy | server/storage.ts | `MemStorage` as a class with two `map` fields |
| `Transfer` | transfer.dfy | server/routes.ts:216-226; api/server.js:206-209 | the percentage and ETA arithmetic both servers apply per chunk |
| `RoutesQualities` | routes_qualities.dfy | server/routes.ts:27-104, 194 | the Express quality chain and file name, as functions and lemmas |
| `RoutesDownloads` | routes_downloads.dfy | server/routes.ts:8-26, 105-314 | the Express endpoints and stream callbacks, as classes and methods |
| `VercelApi` | api_server.dfy | api/server.js:45-238 | the serverless function: loops, an in-place array sort, maps, callbacks |
| `HomePage` | home.dfy | client/src/pages/home.tsx | the page: pure checks as functions, page state as a class |

How JavaScript values are represented:
- An optional string is falsy when absent or empty. An optional number is
  falsy when absent or 0.
- The object identity the filter tests (`format === best`) is a position in
  the mapped list.
- `Array.prototype.sort` is stable, so both sorts are modelled as stable
  insertion sorts.
- The regex replaces work on UTF-16 code units. A character outside the
  Basic Multilingual Plane is two units and becomes two underscores.

## Model

| member | source | states |
|---|---|---|
| Common.RoundDiv | server/routes.ts:217 | `Math.round(a / b)` is the nearest integer, halves rounded up: `2rb <= 2a+b < 2rb+2b`, for any integer numerator, and never negative for a non-negative one |
| Common.RoundDivMonotone | server/routes.ts:217 | a larger numerator never rounds to a smaller result |
| Common.NatStr | server/routes.ts:218 | `${n}` is a non-empty run of digits with no leading zero unless n is 0 |
| Common.NatStrRoundTrip | server/routes.ts:218 | reading the rendering of n back as digits gives n |
| Common.MegabyteText | server/routes.ts:218 | `${Math.round(n / 1024 / 1024)}MB` is a run of digits followed by `MB`, and the digits spell n / 2^20 rounded to the nearest integer, halves up |
| Schema.DurationText | server/routes.ts:109 | the `HH:MM:SS` clock text has hours below 24 and minutes and seconds below 60, and they recombine to the length modulo one day |
| Schema.MakeVideoInfo | server/routes.ts:106-115 | building VideoInfo succeeds exactly when the length fits a Date and there is a thumbnail; it then carries the given qualities, the last thumbnail and the duration text |
| Storage.MemStorage.constructor | server/storage.ts:17-20 | a new store holds no video and no progress record |
| Storage.MemStorage.GetVideoInfo | server/storage.ts:22-24 | yields the cached info exactly when the URL was cached, undefined otherwise |
| Storage.MemStorage.SetVideoInfo | server/storage.ts:26-28 | caches the info under the URL; every other URL and all progress records are unchanged, and no key is lost |
| Storage.MemStorage.GetDownloadProgress | server/storage.ts:30-32 | yields the record exactly when the session id has one |
| Storage.MemStorage.SetDownloadProgress | server/storage.ts:34-36 | replaces the record of that session only; the video cache is unchanged |
| Transfer.Percent | server/routes.ts:217 | the rounded percentage is within 0..100 while the bytes stay within the total, and exactly 100 at the total |
| Transfer.PercentMonotone | api/server.js:208 | more bytes never show a smaller percentage |
| Transfer.EtaBounds | server/routes.ts:222-226 | the seconds left are never negative within the total, and 0 before any byte, at zero elapsed time, or at the total |
| Transfer.EtaSeconds | server/routes.ts:222-226 | with bytes received and time elapsed, the estimate is the remaining bytes over the current rate rounded to the nearest second, halves up; with no byte or no elapsed time it is 0 |
| RoutesQualities.BucketIndex | server/routes.ts:43-52 | a height falls in the first bucket whose floor it reaches, and below the floor of the bucket above |
| RoutesQualities.BucketMonotone | server/routes.ts:43-52 | a greater height never lands in a lower bucket |
| RoutesQualities.LabelOfHeight | server/routes.ts:40-53 | a format with a truthy height gets exactly the one of the nine labels whose floor it reaches and whose next floor it does not |
| RoutesQualities.Label | server/routes.ts:40-53 | a label is never empty, and a truthy height always yields one of the nine bucket labels |
| RoutesQualities.EstimateMonotone | server/routes.ts:60-73 | a taller format never gets a smaller `~NMB` size estimate |
| RoutesQualities.FileSize | server/routes.ts:56-74 | the size is `Unknown` exactly when the format has neither a length nor a truthy height; a format with a height but no length gets a `~NMB` estimate |
| RoutesQualities.BestIndex | server/routes.ts:92-96 | the reduce over one label ends on a candidate with that label |
| RoutesQualities.BestIndexNone | server/routes.ts:92-96 | the reduce ends on no candidate exactly when no candidate has the label |
| RoutesQualities.KeepIsBest | server/routes.ts:86-99 | the filter keeps a candidate exactly when it is where the reduce over its label ends |
| RoutesQualities.FilteredCount | server/routes.ts:86-99 | after the filter, each label of the mapped list occurs once, at the reduce's choice |
| RoutesQualities.DedupeCount | server/routes.ts:86-99 | the filter keeps one entry per label present and adds none |
| RoutesQualities.FilteredAreWinners | server/routes.ts:86-99 | every kept entry is the one the reduce chose for its label |
| RoutesQualities.FilteredLength | server/routes.ts:86-99 | the filter never yields more entries than it is given |
| RoutesQualities.WinnerChoice | server/routes.ts:92-96 | the reduce prefers a format with audio, then the highest bitrate, then the earliest on a tie |
| RoutesQualities.InsertSorted | server/routes.ts:100-103 | inserting into a list sorted by height keeps it sorted and adds exactly that element |
| RoutesQualities.InsertPermutes | server/routes.ts:100-103 | insertion adds exactly the inserted element to the multiset of the list |
| RoutesQualities.InsertOrdered | server/routes.ts:100-103 | insertion keeps a list ordered by non-increasing height ordered |
| RoutesQualities.SortByResolutionCorrect | server/routes.ts:100-103 | the sort yields a permutation ordered by non-increasing height |
| RoutesQualities.SortCount | server/routes.ts:100-103 | sorting keeps the number of entries of each label |
| RoutesQualities.AvailableQualitiesUnique | server/routes.ts:38-104 | the final list offers each label once, and exactly the labels the formats get |
| RoutesQualities.AvailableQualitiesRanked | server/routes.ts:38-104 | the final list is ordered by height; each entry is the reduce's choice for its label, with the container or mp4 as format |
| RoutesQualities.AvailableQualitiesBounded | server/routes.ts:38-104 | the final list has no more entries than there are formats |
| RoutesQualities.Utf16 | server/routes.ts:194 | the title is read as UTF-16 code units, each below 0x10000 |
| RoutesQualities.MaskSpecial | server/routes.ts:194 | the first replace keeps letters, digits and white space, and turns every other code unit into `_` |
| RoutesQualities.SkipSpaces | server/routes.ts:194 | the rest left after a run of white space is a suffix of the text that is empty or starts with a non-space unit |
| RoutesQualities.SkipSpacesSplit | server/routes.ts:194 | the text splits into a prefix of white space only and the rest that is kept |
| RoutesQualities.SkipSpacesOfRun | server/routes.ts:194 | skipping a maximal white-space run leaves exactly what follows it |
| RoutesQualities.CollapseSpaceRun | server/routes.ts:194 | `replace(/\s+/g, '_')` turns a maximal white-space run into one `_` and goes on after it |
| RoutesQualities.CollapseKeepsNonSpace | server/routes.ts:194 | a unit that is not white space is kept as it is |
| RoutesQualities.CollapseSpacesProps | server/routes.ts:194 | the second replace leaves only `[A-Za-z0-9_]`, never lengthens the text, and keeps the alphanumerics in order |
| RoutesQualities.FilenameStem | server/routes.ts:194 | the stem is the two replaces applied to the title: word characters only, no longer than the title |
| RoutesQualities.FilenameStemKeepsAlnums | server/routes.ts:194 | the stem keeps every ASCII letter and digit of the title, in order |
| RoutesQualities.DownloadFilename | server/routes.ts:194 | the file name is the sanitised stem of the title (word characters), a dot, then the container or `mp4` |
| RoutesDownloads.EtaTextRoundTrip | server/routes.ts:226-227 | the ETA text reads back to the estimate when it is positive, and to no number otherwise |
| RoutesDownloads.ParseEtaOfFields | server/routes.ts:226-227 | `{m}m {s}s` with digit fields and s below 60 reads back as m minutes and s seconds |
| RoutesDownloads.EtaText | server/routes.ts:227 | the text is `Calculating...` exactly when the estimate is not positive |
| RoutesDownloads.BuildVideoInfo | server/routes.ts:27-115 | the info is built exactly when the length fits a Date and there is a thumbnail, and then offers each label once |
| RoutesDownloads.ChunkProgress | server/routes.ts:216-243 | a chunk's stored percentage is at most 100 while the bytes stay within the total |
| RoutesDownloads.RoutesServer.constructor | server/routes.ts:8 | `activeDownloads` starts empty over the given store |
| RoutesDownloads.RoutesServer.Analyze | server/routes.ts:13-127 | 400 for a missing or rejected URL; else the cached info; else the built info, which is then cached; 500 when the library or the build fails, caching nothing |
| RoutesDownloads.RoutesServer.StartDownload | server/routes.ts:271-294 | 400 for an invalid request; otherwise the zero record is stored under the new id, which is returned |
| RoutesDownloads.RoutesServer.Progress | server/routes.ts:300-314 | the stored record, or 404 `Session not found` |
| RoutesDownloads.RoutesServer.Download | server/routes.ts:130-268 | the error ladder 400, 400, 500, 500 in source order, with a throwing format selection answered by the outer catch's 500; on success the session (given or fresh) is registered with zero bytes, and the file name and the total are returned with a fresh stream |
| RoutesDownloads.RoutesStream.constructor | server/routes.ts:201-203 | a stream starts with no bytes received |
| RoutesDownloads.RoutesStream.OnData | server/routes.ts:213-245 | the byte count grows by the chunk; with a known total, the session entry and the stored record are replaced; with an unknown total, nothing else changes |
| RoutesDownloads.RoutesStream.OnError | server/routes.ts:247-253 | the session leaves `activeDownloads`, and a 500 is sent only if no header went out |
| RoutesDownloads.RoutesStream.OnEnd | server/routes.ts:255-258 | the session leaves `activeDownloads`; the stored record stays |
| RoutesDownloads.ProgressAcrossChunks | server/routes.ts:213-243 | from one chunk to the next the stored percentage never goes down and stays within 100 |
| VercelApi.FirstByLabelDistinct | api/server.js:62-87 | the collected entries have pairwise distinct labels |
| VercelApi.FirstByLabelCovers | api/server.js:62-87 | a label is collected exactly when some format carries it truthily |
| VercelApi.FirstByLabelFirst | api/server.js:62-87 | each collected entry comes from the first format that carries its label |
| VercelApi.CollectQualities | api/server.js:62-87 | the two `forEach` loops with the label `Set` compute the first-by-label list of the combined then video-only formats |
| VercelApi.ReorderedQualities | api/server.js:62-94 | any reordering of that list still offers each label once, exactly the carried labels, and only first-occurrence entries |
| VercelApi.DigitsOfKeepsDigits | api/server.js:91-92 | `replace(/\D/g, '')` keeps only digits and never lengthens the label |
| VercelApi.KeyOfPlainLabel | api/server.js:91-92 | the sort key of `{h}p` is h |
| VercelApi.KeyOfFrameRateLabel | api/server.js:91-92 | the sort key of `{h}p{fps}` is h followed by the digits of fps |
| VercelApi.FrameRateSuffixOutranks | api/server.js:89-94 | a frame-rate suffix of two or more digits outranks any plain label below a hundred times the height: `1080p60` sorts before `2160p` |
| VercelApi.Swap | api/server.js:90-94 | exchanging two cells permutes the array |
| VercelApi.SinkInto | api/server.js:89-94 | one insertion pass permutes the array and, over keyed labels, extends the ordered prefix by one |
| VercelApi.SortByKey | api/server.js:89-94 | the in-place sort permutes the list; when every label has digits, no entry outranks an earlier one |
| VercelApi.MaskAll | api/server.js:191 | every code unit other than an ASCII letter or digit becomes `_` |
| VercelApi.FilenameStem | api/server.js:191 | the stem has one character per code unit of the title |
| VercelApi.StemsAgreeWithoutSpaces | api/server.js:191 | for a title without white space the serverless stem equals the Express stem |
| VercelApi.DownloadFilename | api/server.js:191 | the file name is the masked stem of the title (ASCII letters, digits and `_`), a dot, then the query's format or `mp4` |
| VercelApi.DispositionAcceptedIff | api/server.js:191-193 | Node accepts the `Content-Disposition` value exactly when the query's format (or `mp4`) has only tab, visible ASCII, space or 0x80-0xff characters, since the masked title never offends |
| VercelApi.ChunkSession | api/server.js:205-218 | a chunk's record is `downloading`; its percentage is at most 100 within a known total; with no total it shows 0, `Unknown` and `0s` |
| VercelApi.ChunkSessionsAdvance | api/server.js:205-218 | within a known total the percentage never goes down between chunks, and the ETA is a plain non-negative number of seconds |
| VercelApi.CompletedSession | api/server.js:222-232 | the end record is `completed` at 100% with `0s` left, and shows the received size as both sizes |
| VercelApi.VercelApi.constructor | api/server.js:45-46 | both maps start empty |
| VercelApi.VercelApi.GetVideoInfo | api/server.js:49-113 | the cached info if any; else the collected list, sorted, built and cached; a library or build failure is reported with the `Failed to fetch video info: ` prefix and caches nothing; sessions untouched |
| VercelApi.VercelApi.Analyze | api/server.js:116-133 | 400 for a missing or rejected URL; otherwise the info is answered exactly when it was cached or can be built, and is then in the cache; else 500 |
| VercelApi.VercelApi.StartDownload | api/server.js:135-158 | 400 for an invalid request; otherwise a `starting` record under the clock id, which is returned |
| VercelApi.VercelApi.Progress | api/server.js:160-169 | the session record, or 404 `Session not found` |
| VercelApi.VercelApi.Download | api/server.js:171-245 | 400 for a missing or rejected URL; 500 `Download failed` when the library fails or when `setHeader` throws on a format Node refuses in a header value; otherwise the file name and a fresh stream for the query's session |
| VercelApi.VercelStream.constructor | api/server.js:196-198 | a stream starts with no bytes received |
| VercelApi.VercelStream.OnData | api/server.js:202-220 | the byte count grows by the chunk; a tracked session gets the chunk's record; nothing else changes |
| VercelApi.VercelStream.OnEnd | api/server.js:222-233 | a tracked session is marked `completed` at 100% with the received size as both sizes |
| VercelApi.VercelStream.OnError | api/server.js:235-238 | the answer is 500 `Download failed`; no session is touched |
| HomePage.IncludesIff | client/src/pages/home.tsx:35-37 | `includes` holds exactly when the text occurs at some position |
| HomePage.IsValidYouTubeUrl | client/src/pages/home.tsx:35-37 | a URL passes exactly when `youtube.com` or `youtu.be` occurs anywhere in it |
| HomePage.AcceptsAnyTextAroundHost | client/src/pages/home.tsx:35-37 | any text before or after a host name passes the check |
| HomePage.RejectsShort | client/src/pages/home.tsx:35-37 | every URL shorter than `youtu.be`, the empty one included, fails the check |
| HomePage.DisplayQualityTable | client/src/pages/home.tsx:398-411 | each of the nine named labels shows its own name; any other label is shown unchanged |
| HomePage.DisplayNamesDistinct | client/src/pages/home.tsx:398-411 | distinct named labels show distinct names, and no name is itself a named label |
| HomePage.BucketLabelsAreNamed | client/src/pages/home.tsx:398-411 | every label the Express server derives from a height has a descriptive name |
| HomePage.GetDisplayQuality | client/src/pages/home.tsx:398-411 | a label is shown unchanged exactly when it is not one of the nine named labels |
| HomePage.Home.constructor | client/src/pages/home.tsx:21-31 | the page starts empty, format mp4, no download, no polling |
| HomePage.Home.SetVideoUrl | client/src/pages/home.tsx:283 | typing changes the URL only |
| HomePage.Home.SetSelectedQuality | client/src/pages/home.tsx:392 | choosing a quality changes the selection only |
| HomePage.Home.SetSelectedFormat | client/src/pages/home.tsx:426 | choosing a format changes the format only |
| HomePage.Home.HandleAnalyze | client/src/pages/home.tsx:195-201 | an empty or foreign URL sets the error and sends nothing; otherwise the URL is sent and nothing changes |
| HomePage.Home.OnAnalyzed | client/src/pages/home.tsx:44-60 | success shows the info and clears the error; failure shows the message (or the default) and drops the info |
| HomePage.Home.HandleDownload | client/src/pages/home.tsx:203-222 | without info or a chosen quality nothing happens; otherwise the download starts at 0% and the request carries URL, quality and format |
| HomePage.Home.OnDownloadStarted | client/src/pages/home.tsx:149-192 | success remembers the session and starts polling; failure stops the download with the message (or the default) |
| HomePage.Home.TrackDownloadProgress | client/src/pages/home.tsx:116-140 | a failed poll changes nothing; a record replaces the percentage and the four texts; at 100% or more the download completes and polling stops |
| HomePage.Home.HandleReset | client/src/pages/home.tsx:224-238 | the page returns to the state of a fresh load, with polling stopped |
| HomePage.Home.DismissError | client/src/pages/home.tsx:599 | "Try Again" clears the error and changes nothing else |
| HomePage.CompleteDownload | client/src/pages/home.tsx:116-222 | a request, a started session and a poll at 100% end with the download complete, no download running, polling stopped and the bar at 100% |

## Left out

- The extraction library is not modelled. That covers `ytdl.validateURL`, `getInfo`, `filterFormats`, `chooseFormat`, `downloadFromInfo` and the byte stream itself. Their answers enter as parameters: `urlValid`, `fetched`, `selected` and the chunk lengths. The container and MIME type the Express server puts in its headers (server/routes.ts:196-197) come from the library and are taken to be valid header values.
- The Express format selection (server/routes.ts:154-186) is not modelled. Its outcome enters as `selected`: the chosen format, none, or a failure when the fallback `chooseFormat` in its catch throws.
- The clock and the id generators are parameters: `startTime`, `elapsedMs`, `freshId` and `nowId`. Two serverless sessions started in the same millisecond share an id; the model lets `StartDownload` overwrite, as the map does.
- The speed text `toFixed(1)` is a floating-point rendering. It enters as `speedText`.
- `toLocaleString` and `toLocaleDateString` depend on the locale. The view count and publish date enter as the texts `viewsText` and `publishDateText`.
- Rounding is exact rational arithmetic. Floating point is not modelled:
  - `Math.round(d / t * 100)`, the ETA, and the `~NMB` estimates (products such as `duration * 0.3`) could differ by one where a float product lands just beside a half.
  - `parseInt` of a digit run whose value exceeds 2^53 loses precision, but `VercelApi.ResolutionKey` is exact.
- `contentLength` and `lengthSeconds` are parsed non-negative integers. A non-numeric string, which gives NaN, is not modelled.
- Schema.DurationText: assumes the four-digit-year ISO form. A length of 253402300800 seconds or more (past the year 9999) renders in the six-digit extended form, and the substring at 11 is then not the clock time.
- VercelApi.SortByKey: promises only a permutation when some label has no digits (the comparator then yields NaN). V8's own algorithm is not modelled, and stability is not stated.
- VercelApi.VercelStream.OnError: returns the 500 answer even when headers already went out. The model does not capture Express throwing in that case.
- The 500 answers `Failed to start download session` and `Failed to get progress` (server/routes.ts:290-293, 310-313) need the in-memory store to throw, which it cannot, so they are omitted.
- HTTP plumbing is not modelled: JSON bodies, CORS headers, the `Content-Disposition` and `Content-Type` headers, piping bytes to the response, and the health endpoint.
- Concurrency is not modelled. Requests and callbacks are sequential method calls, and an async step of the page is a handler paired with the callback that receives its outcome.
- HomePage.Home.OnAnalyzed: the message of the thrown error is a parameter, because the request helper that formats it is not part of this model. The same holds for OnDownloadStarted.
- HomePage.Home.HandleDownload: requires the state in which its button is rendered (client/src/pages/home.tsx:383, 467): no download running and none completed.
- On the page, the mobile download path (client/src/pages/home.tsx:64-113), the browser link that fetches the file, toasts and the JSX rendering are left out. The interval timer is the flag `polling`.

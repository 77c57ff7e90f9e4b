# Video downloader catalogue core, in Dafny

This project models the logic of a small web service for downloading social-media videos. The service turns the output of external extractors into a catalogue of download options. The model covers four parts:

- **The server's `/api/download` handler** (`backend/server.js`).
  - It takes the yt-dlp `info` record as input.
  - `formatDuration` writes the duration as `MM:SS` or `HH:MM:SS`.
  - `createProxyUrl` wraps a format's url and the extractor's User-Agent and Referer into a `/api/proxy` reference, each percent-encoded as `encodeURIComponent` does.
  - The format loop filters the raw records, classifies them as audio-only or progressive video, and writes the size text. It de-duplicates by `sub_label` (first seen wins), and both lists are then sorted stably by the leading integer of `sub_label`.
- **The client's resolution service** (`frontend/src/services/mockBackend.ts`).
  - `checkRateLimit` is a fixed one-hour window over two storage items.
  - The service answers direct links to media files itself.
  - Otherwise it asks the local server. When that yields nothing, it tries the Cobalt instances in order and turns their replies into a catalogue.
  - A network-class failure message is rewritten, depending on whether the page is served from this machine.
- **The platform table and its validators** (`constants.ts`). These are one anchored YouTube expression and six substring checks, plus `MAX_REQUESTS_PER_HOUR`.
- **The thumbnail page's keyword classifier** (`pages/ThumbnailPage.tsx`). It picks the platform a link is sent as.

Layout, one Dafny module per file:

| file | module | contents |
|---|---|---|
| common.dfy | Common | `Option`, `Result` and JavaScript truthiness of optional strings and numbers |
| text.dfy | Text | decimal numerals, `padStart`, `parseInt`'s leading integer, `includes`, `split`/`join`, ASCII case mapping |
| uri_component.dfy | UriComponent | `encodeURIComponent` over UTF-8, and the decoder the proxy route uses as its partner |
| catalog.dfy | Catalog | the shapes of `frontend/src/types.ts`; `VideoQuality` gains the `sub_label` the server emits, and its `label` is called `caption` |
| server.dfy | Server | `formatDuration`, `createProxyUrl`, the size text |
| ranking.dfy | Ranking | the rank `parseInt(sub_label) \|\| 0` and the stable sort by it |
| download_handler.dfy | DownloadHandler | the format loop (a method with its invariants), its specification and the handler's response |
| rate_limit.dfy | RateLimit | the limiter as a class over the two storage items, and its step function |
| mock_backend.dfy | MockBackend | the strategies, the instance loop (methods), the direct-file test, the error rewrite |
| platforms.dfy | Platforms | `PLATFORMS`, its validators, `MAX_REQUESTS_PER_HOUR` |
| thumbnail_page.dfy | ThumbnailPage | the keyword classifier of `handleSubmit` |

What the outside world does is an input to the model:

- the yt-dlp record, or the message of the error it threw;
- one outcome for the local server;
- one reply per Cobalt instance;
- the clock reading `now`;
- the page's host name.

Where the code departs from what its names and constants suggest, the model follows the code:

- The synthetic "Best Quality (HD/4K)" entry is not kept first. Its `sub_label` "High" ranks 0, so the sort places it after every entry with a positive height and before the "Video" entry (`DownloadHandler.BestQualityPlacement`).
- Direct-file and Cobalt results carry their links in `qualities`, and `audio` and `video` stay empty.
- The client's limiter uses capacity 50 (`RateLimit.ClientCapacity`). `constants.ts` declares 20 (`Platforms.MaxRequestsPerHour`), but the limiter does not read it. The capacity is a parameter of the limiter, and `RateLimit.CapacityTwentyVersusFifty` shows where the two differ.

## Model

| member | source | states |
|---|---|---|
| Server.FormatDuration | backend/server.js:36-45 | the text has at least five characters with a ':' before the last two, and exactly five ("MM:SS") when the duration is missing, zero or under an hour |
| Server.DurationRoundTrip | backend/server.js:36-45 | a missing or zero duration gives "00:00"; the text has two fields (five characters) exactly when the duration is under an hour; reading the fields back as h·3600 + m·60 + s gives the seconds |
| Server.FormatZero | backend/server.js:37 | a missing or zero duration is written "00:00" |
| Server.FormatUnderAnHour | backend/server.js:38-44 | under an hour the text is the zero-padded minutes, ':' and the zero-padded seconds |
| Server.FormatFromAnHour | backend/server.js:38-42 | from an hour on the text is the padded hours, minutes below 60 and seconds below 60, joined by ':' |
| Server.SecondsFields | backend/server.js:38-40 | the minutes and seconds fields are below 60, and h·3600 + m·60 + s is the duration |
| Server.DurationUnderAnHour | backend/server.js:44 | the two-field text under an hour reads back as the duration |
| Server.DurationFromAnHour | backend/server.js:42 | the three-field text reads back as the duration, with an hours field of at least two digits |
| Server.CreateProxyUrl | backend/server.js:72-78 | the reference is empty exactly when the target is, and otherwise starts with the "/api/proxy?url=" route |
| Server.ProxyUrlRoundTrip | backend/server.js:72-78 | only an empty target gives ""; otherwise the proxy route, splitting at '&' and '=' and decoding, recovers exactly the target, User-Agent and Referer |
| Server.ProxyUrlIsJoin | backend/server.js:77 | the reference is the route followed by the three `key=value` pieces joined by '&' |
| Server.ProcessUrlRoundTrip | backend/server.js:90 | the synthetic entry's `/api/process` reference carries the requested url back unaltered |
| Server.SizeText | backend/server.js:109-113 | the text is "Unknown" exactly when no size is known, and otherwise ends in " MB" from 1 MiB on and in " KB" below |
| Server.SizeTextMeaning | backend/server.js:109-113 | the size is "Unknown" exactly when no size is known; otherwise it is the nearest hundredth of the size in MiB (from 1 MiB on) or KiB (below), followed by " MB" or " KB" |
| Server.SizeTextExamples | backend/server.js:109-113 | 1048576 bytes give "1.00 MB", 2000 bytes give "1.95 KB", no size gives "Unknown" |
| Server.Hundredths | backend/server.js:111-112 | the count of hundredths is the nearest one to bytes/unit, ties rounding up |
| Server.Fixed2ReadsBack | backend/server.js:112 | the two-decimal text reads back as the number of hundredths it was written from |
| UriComponent.DecodeEncode | backend/server.js:74-76 | decoding undoes `encodeURIComponent` for every string |
| UriComponent.EncodeOmitsDelimiters | backend/server.js:74-77 | the encoding never contains '&', '=' or '+' |
| UriComponent.EncodeIsEncodedText | backend/server.js:74-76 | every character emitted is unreserved or '%' |
| UriComponent.Utf8RoundTrip | backend/server.js:74-76 | UTF-8 decoding undoes UTF-8 encoding, and the lead byte announces the length |
| UriComponent.ReadEscapedBytes | backend/server.js:74-76 | the `%HH` escapes of a byte list read back as the same bytes, whatever follows |
| UriComponent.HexRoundTrip | backend/server.js:74-76 | a hex digit reads back as its value |
| DownloadHandler.HandleDownload | backend/server.js:47-173 | a failed extraction answers "Could not download video: " and the message; otherwise the id is "js-" and the video id (the clock when there is none), the defaults fill a missing title, thumbnail and uploader, the duration is `formatDuration`'s text and reads back as the duration, `platform` defaults to "auto", `qualities` is empty, and the lists are the catalogue |
| DownloadHandler.KindOf | backend/server.js:98-130 | a record is kept only when it has a url and an audio codec, and a kept record is audio exactly when it has no video codec |
| DownloadHandler.Entry | backend/server.js:116-141 | an audio record's entry has format "mp3" and a progressive record's has "mp4"; every entry has a non-empty proxy reference and no quality badge |
| DownloadHandler.Catalogue | backend/server.js:84-155 | the synthetic entry is always in the video list, and without `formats` the audio list is empty |
| DownloadHandler.BuildCatalogue | backend/server.js:80-156 | the lists the handler builds are the catalogue specification: the synthetic entry, the kept entries, then both sorted |
| DownloadHandler.CollectFormats | backend/server.js:93-143 | the loop's lists are the first-seen entries of each kind, in input order, after whatever the video list held before |
| DownloadHandler.VisitFormat | backend/server.js:97-142 | one pass of the loop body appends a record's entry exactly when its kind matches and its label is unseen, and adds the label to that kind's seen set |
| DownloadHandler.CatalogueContents | backend/server.js:84-155 | no label occurs twice in either list; without `formats` the lists are [] and the synthetic entry alone; otherwise an entry is in the audio list exactly when it belongs to the first audio record with its label, and in the video list exactly when it is the synthetic entry or belongs to the first progressive record with its label |
| DownloadHandler.CatalogueFormats | backend/server.js:116-141 | every audio entry has format "mp3" and every video entry "mp4", so no entry is in both lists |
| DownloadHandler.BestQualityPlacement | backend/server.js:84-150 | the synthetic entry is in the video list; the ranks strictly decrease up to it, and only the "Video" entry can follow it |
| DownloadHandler.AudioRanksStrictlyDecrease | backend/server.js:151-155 | the audio ranks strictly decrease: one entry per bitrate, highest first |
| DownloadHandler.VideoLayout | backend/server.js:146-150 | the sorted video list is its positive-rank entries, then the synthetic entry, then the rank-0 progressive entries in input order |
| DownloadHandler.DroppedFormatsAddNothing | backend/server.js:98-142 | a record without a url, over m3u8 or dash, or without an audio codec adds nothing to either list |
| DownloadHandler.AudioEntryShape | backend/server.js:116-127 | an audio record's entry is "MP3"/"mp3", labelled by its bitrate or "Audio", sized from filesize or filesize_approx, and its proxy reference reads back as the record's url and the headers |
| DownloadHandler.VideoEntryShape | backend/server.js:130-141 | a progressive record's entry is "MP4"/"mp4", labelled by its height or "Video", with the same size and proxy reference |
| DownloadHandler.KeptEntriesAreFirstOfTheirLabel | backend/server.js:118-140 | every kept entry belongs to a record that is the first of its kind with its label |
| DownloadHandler.FirstOfEachLabelIsKept | backend/server.js:118-140 | every record that is the first of its kind with its label has its entry kept |
| DownloadHandler.KeptLabelsDistinct | backend/server.js:94-140 | the kept labels of each kind are pairwise distinct |
| DownloadHandler.LabelsMembership | backend/server.js:126-140 | the seen set holds exactly the labels of the records of that kind |
| DownloadHandler.BestQualityLabelIsFresh | backend/server.js:84-131 | the synthetic entry's label "High" is never a progressive entry's label |
| DownloadHandler.BitrateLabelRank | backend/server.js:117-152 | `parseInt` of a bitrate label gives the bitrate back (0 for "Audio") |
| DownloadHandler.HeightLabelRank | backend/server.js:131-147 | `parseInt` of a height label gives the height back (0 for "Video") |
| DownloadHandler.BestQualityRank | backend/server.js:86-147 | the synthetic entry ranks 0 |
| Ranking.SortByRank | backend/server.js:146-155 | the sorted list is non-increasing by rank and a permutation of its input |
| Ranking.SortByRankStable | backend/server.js:146-155 | for every rank, sorting keeps the order of the entries of that rank |
| Ranking.SortByRankMembers | backend/server.js:146-155 | sorting neither adds nor loses entries |
| Ranking.SortByRankDistinct | backend/server.js:146-155 | sorting keeps labels pairwise distinct |
| Ranking.SortedSplitsAtZero | backend/server.js:146-150 | a sorted list is its positive-rank entries followed by its rank-0 entries |
| RateLimit.RateLimitStore.CheckRateLimit | frontend/src/services/mockBackend.ts:9-30 | the answer and the stored count and start after the call are those of the step function on the stored items |
| RateLimit.RateLimitStore.constructor | frontend/src/services/mockBackend.ts:11-15 | fresh storage holds neither item |
| RateLimit.Step | frontend/src/services/mockBackend.ts:18-29 | an allowed call stores a count from 1 up to the capacity and a start; a refused call leaves both items as they were |
| RateLimit.WindowRestart | frontend/src/services/mockBackend.ts:14-21 | missing items read as count 0 and start `now`; the window restarts at (0, now) only when more than 3600000 ms have passed, strictly |
| RateLimit.Decide | frontend/src/services/mockBackend.ts:23-29 | a call is refused exactly when the window's count has reached the capacity, and then nothing is written; an allowed call stores count + 1 and the window's start |
| RateLimit.NumeralReadsBack | frontend/src/services/mockBackend.ts:14-28 | what the limiter writes reads back as the number written |
| RateLimit.WindowBudget | frontend/src/services/mockBackend.ts:18-29 | within one window exactly the first capacity − count calls are let through |
| RateLimit.FreshStoreBudget | frontend/src/services/mockBackend.ts:18-29 | from empty storage the first hour's calls get exactly min(calls, capacity) answers of yes |
| RateLimit.ZeroCapacityRefusesAll | frontend/src/services/mockBackend.ts:23-25 | with capacity 0 nothing is let through |
| RateLimit.ExpiredWindowAllows | frontend/src/services/mockBackend.ts:18-29 | once the window has run out, the next call opens a new window and is allowed |
| RateLimit.CapacityTwentyVersusFifty | frontend/src/services/mockBackend.ts:5 | a 21st call in the window is allowed at the client's capacity 50 and would be refused at 20 |
| MockBackend.TryLocalBackend | frontend/src/services/mockBackend.ts:33-76 | an ok response's catalogue is returned unchanged, and every other outcome gives nothing |
| MockBackend.InstanceResult | frontend/src/services/mockBackend.ts:111-163 | a failure that was thrown is recorded with its own message; a success has at least one link and empty audio and video lists |
| MockBackend.TryInstance | frontend/src/services/mockBackend.ts:89-168 | one pass of the instance loop's body gives the result the reply specifies |
| MockBackend.Attempts | frontend/src/services/mockBackend.ts:85-172 | with no replies left the error is the last one caught, or the busy message when none was; a success has at least one link and empty audio and video lists |
| MockBackend.TryCobaltDownload | frontend/src/services/mockBackend.ts:85-172 | the loop's result is the first success among the replies in order, else the last error, else the busy message |
| MockBackend.FetchVideoMetadata | frontend/src/services/mockBackend.ts:176-227 | the limiter takes its step on the store first, and the answer is what the strategies give in order once that step has decided |
| MockBackend.InstanceSuccessShape | frontend/src/services/mockBackend.ts:117-163 | a successful reply gives at least one "HD"/"mp4" link, empty audio and video, id "cb-" and the clock, duration "00:00", author "Social Media User" and the platform's own thumbnail |
| MockBackend.PickerReplyEntries | frontend/src/services/mockBackend.ts:118-128 | a picker reply gives one entry per item, in order, captioned with the upper-cased type or "VIDEO", with the item's url; the title is the filename or "<platform> Video" |
| MockBackend.EmptyPickerHasNoLinks | frontend/src/services/mockBackend.ts:120-138 | an empty picker is still a picker, so the reply fails with "No links found" even when it carries a url |
| MockBackend.SingleUrlReply | frontend/src/services/mockBackend.ts:129-138 | a non-picker reply succeeds exactly when it carries a url, with one "High Quality" entry, and fails with "No links found" otherwise |
| MockBackend.InstanceErrors | frontend/src/services/mockBackend.ts:111-114 | a failed response records "HTTP <code>", an error reply records its text or "API Error", a null body records the TypeError of reading `status`, and a falsy body records "API Error" |
| MockBackend.ThumbnailsCoverPlatforms | frontend/src/services/mockBackend.ts:140-151 | every platform has its own stock thumbnail, so the default is never used for a platform id |
| MockBackend.FirstInstanceRetriedLast | frontend/src/services/mockBackend.ts:79-83 | there are three instances, and the first and the third are the same service |
| MockBackend.FirstSuccessWins | frontend/src/services/mockBackend.ts:88-169 | the first reply that succeeds is the answer, whatever the earlier failures were |
| MockBackend.LaterRepliesIgnored | frontend/src/services/mockBackend.ts:88-169 | replies after the first success play no part |
| MockBackend.AllFailLastError | frontend/src/services/mockBackend.ts:165-171 | when every reply fails, the error thrown is the last reply's |
| MockBackend.SuccessOrSomeReplysError | frontend/src/services/mockBackend.ts:86-171 | the loop ends with a success or with the error of one of the replies it tried |
| MockBackend.BusyOnlyWithoutInstances | frontend/src/services/mockBackend.ts:171 | with the instances there are, the busy message is never thrown; only a loop over no instances would throw it |
| MockBackend.MatchesExtension | frontend/src/services/mockBackend.ts:182 | a link can match only when there is an extension to look for and the link holds a '.' |
| MockBackend.MatchesExtensionIff | frontend/src/services/mockBackend.ts:182 | the search matches exactly when, somewhere, a '.' and one of the extensions in any letter case are followed by the end or by '?' |
| MockBackend.UpperCaseExtensionIsDirect | frontend/src/services/mockBackend.ts:182 | a link ending in ".MP4" is a direct link |
| MockBackend.Mp3WithQueryIsAudio | frontend/src/services/mockBackend.ts:182-194 | a ".mp3" link followed by a query is direct and offered as "mp3" |
| MockBackend.DirectTitle | frontend/src/services/mockBackend.ts:186 | the title is never empty and holds no '/' and no '?' |
| MockBackend.DirectFileMetadata | frontend/src/services/mockBackend.ts:184-199 | the only entry is the link itself, offered as "mp3" exactly when the link names an .mp3 file; audio and video are empty |
| MockBackend.DirectTitleOfName | frontend/src/services/mockBackend.ts:186 | the title is the last '/' segment cut before its '?' |
| MockBackend.DirectTitleWithoutQuery | frontend/src/services/mockBackend.ts:186 | without a query the title is the last '/' segment |
| MockBackend.DirectTitleFallback | frontend/src/services/mockBackend.ts:186 | a last segment that is all query falls back to "Direct File" |
| MockBackend.DirectFileShortCircuit | frontend/src/services/mockBackend.ts:182-200 | a direct link is answered whatever the local server and the instances would do, with the link as the only entry ("Original", "Unknown", mp3 or mp4) and empty audio and video |
| MockBackend.Resolve | frontend/src/services/mockBackend.ts:176-227 | only an allowed request can succeed, and an allowed direct link always succeeds |
| MockBackend.RefusedRequestTriesNothing | frontend/src/services/mockBackend.ts:177-179 | a refused request fails with the limiter's message, whatever the link and the network would do |
| MockBackend.LocalBackendFirst | frontend/src/services/mockBackend.ts:202-208 | for any link that is not direct, the local server's catalogue is the answer when it gives one |
| MockBackend.CobaltFallback | frontend/src/services/mockBackend.ts:210-226 | otherwise the answer is the instances' success, or their error rewritten |
| MockBackend.RewriteError | frontend/src/services/mockBackend.ts:216-225 | the message stays as it is or becomes one of the two unreachable texts, and only a message with "Failed to fetch" or "NetworkError" is changed |
| MockBackend.RewriteErrorChoice | frontend/src/services/mockBackend.ts:214-225 | a message with "Failed to fetch" or "NetworkError" becomes the local text exactly when the host is localhost or 127.0.0.1, and the remote text otherwise; any other message passes unchanged |
| Platforms.Config | constants.ts:6-77 | each platform's entry carries that platform's id |
| Platforms.TableOrder | constants.ts:6-77 | the table has seven entries in the order youtube, instagram, tiktok, facebook, twitter, pinterest, snapchat, so no id occurs twice |
| Platforms.TableListsEveryPlatform | constants.ts:6-77 | every platform id has its entry |
| Platforms.TableEntries | constants.ts:6-77 | each platform's entry is at its position in that order |
| Platforms.Test | constants.ts:14 | the YouTube validator accepts exactly the links of the expression's language |
| Platforms.NeedleAnywhere | constants.ts:24-74 | a substring validator accepts a link exactly when one of its needles occurs in it, wherever |
| Platforms.NeedleAccepted | constants.ts:24-74 | any text around a needle is accepted |
| Platforms.MatchesYouTube | constants.ts:14 | an accepted link has at least nine characters and does not end in a line terminator |
| Platforms.MatchesYouTubeIffLanguage | constants.ts:14 | the matcher accepts exactly an optional "http://" or "https://", an optional "www.", one of "youtube.com", "youtube", "youtu.be", a '/' and at least one more character that is not a line terminator |
| Platforms.AssembledMatches | constants.ts:14 | every link built from those parts is accepted |
| Platforms.MatchedIsAssembled | constants.ts:14 | every accepted link is built from those parts |
| Platforms.MobileHostRejected | constants.ts:14 | the expression is anchored at the start, so "https://m.youtube.com/a" is rejected |
| Platforms.BareHostRejected | constants.ts:14 | "youtube.com/" is rejected: at least one character must follow the '/' |
| Platforms.TrailingLineBreakRejected | constants.ts:14 | the expression is anchored at the end and `.` stops at a line break |
| Platforms.ShortHostAccepted | constants.ts:14 | "youtu.be/a" is accepted |
| Platforms.DotlessHostAccepted | constants.ts:14 | "youtube/a" is accepted |
| ThumbnailPage.ClassifyUrl | pages/ThumbnailPage.tsx:14-29 | the service is not asked exactly when the link is empty, and instagram is chosen exactly when the link mentions "instagram" |
| ThumbnailPage.ClassifyIsFirstMatch | pages/ThumbnailPage.tsx:14-29 | an empty link asks nothing; otherwise the platform is the first keyword entry the link mentions, in the order instagram, tiktok, facebook, twitter/x.com, pinterest, snapchat, and youtube when none is mentioned |
| ThumbnailPage.FirstMentionIsFirst | pages/ThumbnailPage.tsx:24-29 | the entry found is mentioned, and every earlier entry is not |
| ThumbnailPage.ValidatedLinkClassifiedNoLater | pages/ThumbnailPage.tsx:23-29 | a link that passes a substring validator through its full host name is never sent as youtube, and is sent as that platform or an earlier one |
| ThumbnailPage.LinkWithoutIENXSentAsYouTube | pages/ThumbnailPage.tsx:23 | a link without the letters i, e, x and n is sent as youtube |
| ThumbnailPage.LinkWithoutSKFWXESentAsYouTube | pages/ThumbnailPage.tsx:23 | a link without the letters s, k, f, w, x and e is sent as youtube |
| ThumbnailPage.FacebookShortLinkSentAsYouTube | pages/ThumbnailPage.tsx:23-29 | "fb.watch/a" passes the Facebook validator but is sent as youtube |
| ThumbnailPage.PinterestShortLinkSentAsYouTube | pages/ThumbnailPage.tsx:23-29 | "pin.it/a" passes the Pinterest validator but is sent as youtube |
| ThumbnailPage.XComWithoutIFSentAsTwitter | pages/ThumbnailPage.tsx:27 | a link containing "x.com" but without the letters i and f is sent as twitter |
| ThumbnailPage.BoxComSentAsTwitter | pages/ThumbnailPage.tsx:27 | "box.com" is sent as twitter |
| ThumbnailPage.EarlierKeywordWins | pages/ThumbnailPage.tsx:24-25 | "instagram.com/tiktok" is sent as instagram |

## Left out

- `/api/process`, `/api/proxy`, the health route, static serving, the catch-all route and `listen` are not modelled. They are file, process and network I/O.
- The yt-dlp call is not modelled; its result or its error message is an input.
- `fetch`, `AbortController` and the 60 s and 15 s timeouts are not modelled. Each is folded into one outcome per request.
- Logging through `console` is not modelled; it has no effect on results.
- Numbers are naturals. Fractional bitrates, heights, durations and sizes are not modelled, so `Math.floor` is the identity here.
- Server.Hundredths: `toFixed(2)` is modelled as rounding to the nearest hundredth with ties up. For whole byte counts below 2^53 this is exact, because dividing by 1048576 or 1024 is exact in binary floating point. From 2^53 bytes on, the count itself may already be rounded in the source.
- A yt-dlp field holding a lone UTF-16 surrogate makes `encodeURIComponent` (backend/server.js:74-76) throw a URIError, and the handler then answers 400 "Could not download video: URI malformed" (backend/server.js:170-172). Dafny strings cannot hold a lone surrogate, so this path is not modelled.
- Ranking.SortByRank: `Array.prototype.sort` is a library call, so it is modelled as a stable insertion sort over a sequence rather than in place. Any stable sort gives the same result, because equal ranks keep their order.
- The `baseUrl` rewrite in `tryLocalBackend` is not modelled. `baseUrl` is the empty string, so that branch never runs.
- The local server's reply is taken as well formed. A body that is not a `VideoMetadata` is not modelled.
- A Cobalt body is taken as `null`, a falsy value, or a value whose `status`, `text`, `filename` and `url` are strings or absent. A truthy value that is not an object reads as a reply with every field absent.
- A truthy `picker` is taken as an array of objects whose `type` is a string or absent and whose `url` is a string. In the source, a truthy `picker` that is not an array, a `null` item or a `type` that is not a string throws a TypeError (frontend/src/services/mockBackend.ts:121-123), which becomes that instance's error. These shapes are not modelled. Neither is an item without a `url`, whose entry would carry `undefined`.
- The null-body message is one engine's wording of the TypeError. Other engines word it differently.
- RateLimit.RateLimitStore.CheckRateLimit: it requires that the storage items hold decimal numerals, which is all this code writes. Items that read as `NaN` or carry trailing text are not modelled.
- One clock reading serves the limiter and the catalogue id. The source reads `Date.now()` separately for each.
- Text.ToUpper: `toUpperCase` is modelled for ASCII letters only.
- The host name is a parameter standing for `window.location.hostname`.
- The `MAX_REQUESTS_PER_HOUR` of 20 in `constants.ts` is kept as a constant. No limiter uses it.
- Platforms: the `PLATFORMS` entries' icons, colours, gradients, placeholders and descriptions are presentation only and are not modelled.
- The thumbnail page's state setters, rendering and download code are not modelled. Only the platform choice of `handleSubmit` is.

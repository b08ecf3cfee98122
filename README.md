# media-toolkit in Dafny

A model of the collection pipeline of media-toolkit, a personal tool that
finds links to social-media posts (Instagram, Facebook, LinkedIn, Threads)
in a directory of Markdown notes and stores one record per post. The model
covers every stage of that pipeline:

- **Parsing the notes.** Front matter is skipped, links and their context line are picked out, each link gets a platform, and its id is derived from the normalised URL (`MdParser`). It also covers unique links and duplicate reports (`Grouping`, `Tallies`).
- **Checking each link.** An HTTP probe with retries (`UrlValidator`).
- **Scraping a post's metadata.** Count and text clean-up (`ScraperBase`, `Counts`). The yt-dlp based scrapers (`YtDlp`, `Instagram`, `Facebook`). The HTML-based scrapers (`Html`, `Threads`, `LinkedIn`, over the small pattern matcher in `Regex`). The registry that picks a scraper (`Factory`).
- **Downloading media.** The yt-dlp downloader with its HTTP fallback, thumbnail processing and deletion (`MediaDownloader`). The generic downloader and extractor chain (`GeneralDownloader`, `Extractor`, `PathNames`).
- **Storing records.** Markdown record files with front matter, plus an in-memory index. Saving, loading, deleting, retagging, listing with filters, sorting and pages, statistics, analytics and reindexing: functions in `DbStore`, `DbQuery`, `DbStats` and `Sorting`, applied in place by the class `Db.Database`.
- **Driving the pipeline.** The command-line pipeline (`MainPipeline`). The viewer server's request handlers, background stage tasks and shared task record (`Server`, `Stages`, `Tasks.TaskState`). The order in which the server's routes are matched (`Server.Dispatch`).

Inputs supplied as parameters:

- **The outside world.** HTTP replies, yt-dlp runs, image resizing, directory listings, file contents and the clock are parameters: a reply, a run outcome, a listing, or a function from the item's position to what the call returned. A method's contract states its result and new state for any such input.
- **Identifiers.** The SHA-256 digest behind ids is the parameter `digest`. Only its first 12 characters are used.
- **The key order of Python dicts.** It is a sequence kept beside the map (the index's `order`).

Two facts about the code as written are proved and kept in the model, because they are how it behaves:

- The files yt-dlp writes under the author's sub-directory are never found by `download`'s `{post_id}.*` lookup in the media directory (`MediaDownloader.ToolOutputNeverListed`).
- With several media URLs, the fallback's numbered files do not match that lookup either (`MediaDownloader.FallbackNamesListed`).

## Model

| member | source | states |
|---|---|---|
| Models.PlatformOf | src/media_toolkit/storage/models.py:9-16 | `Platform(s)` succeeds exactly for the five declared values and gives the member with that value |
| Models.PlatformRoundTrip | src/media_toolkit/storage/models.py:9-16 | every platform is recovered from its stored value |
| Models.StatusOf | src/media_toolkit/storage/models.py:19-26 | `PostStatus(s)` succeeds exactly for the five declared values and gives the member with that value |
| Models.StatusRoundTrip | src/media_toolkit/storage/models.py:19-26 | every status is recovered from its stored value |
| Models.ValidatePost | src/media_toolkit/storage/models.py:52-55 | a record is accepted, unchanged, exactly when no metric is negative |
| Models.NewPost | src/media_toolkit/storage/models.py:29-76 | a record built from id, url, platform and source file has status pending, empty lists and every optional field absent, and meets the metric bounds |
| Models.EmptyStatistics | src/media_toolkit/storage/models.py:82-102 | every counter is zero and both breakdowns are empty |
| Models.ValidateFilter | src/media_toolkit/storage/models.py:130-132 | a filter is accepted, unchanged, exactly when `1 <= limit <= 500` and `offset >= 0` |
| Models.DefaultFilter | src/media_toolkit/storage/models.py:110-136 | the default filter has no criteria, limit 50, offset 0, and sorts by `scraped_at` descending, within the bounds |
| MdParser.TrackingAt | src/media_toolkit/parser/md_parser.py:58 | a match of the tracking-parameter pattern starts at a `?` or `&` and stays within the text |
| MdParser.DropFinalQuestion | src/media_toolkit/parser/md_parser.py:60 | a final `?`, or a `?` just before a final newline (where `$` also matches), is removed and nothing else changes |
| MdParser.Normalize | src/media_toolkit/parser/md_parser.py:55-62 | the normal form never ends in `/` |
| MdParser.UrlId | src/media_toolkit/parser/md_parser.py:48-53 | the id is the first 12 characters of the digest of the normal form |
| MdParser.TrackingParamIgnored | src/media_toolkit/parser/md_parser.py:58-62 | appending `?k=v` or `&k=v` for a tracking key `k` (igsh, mibextid, img_index) leaves the normal form unchanged |
| MdParser.TrailingSlashIgnored | src/media_toolkit/parser/md_parser.py:58-62 | a trailing slash does not change the normal form, unless removing the tracking parameters leaves the shorter URL ending in `?` |
| MdParser.SameIdVariants | tests/test_parser.py:59-89 | a URL without a query, with a trailing slash, and with a tracking parameter (after the slash or not) all get the same id |
| MdParser.SameNormalSameId | src/media_toolkit/parser/md_parser.py:48-53 | the id depends only on the normal form |
| MdParser.StripWithoutEquals | src/media_toolkit/parser/md_parser.py:58 | a URL without an `=` has no tracking parameter to remove |
| MdParser.NormalizeNotIdempotent | src/media_toolkit/parser/md_parser.py:58-62 | normalising `x/A?/` gives `x/A?`, and normalising that again gives `x/A`, so the substitutions are not idempotent |
| MdParser.QuestionMarkLost | src/media_toolkit/parser/md_parser.py:58-61 | a tracking parameter right after `?` takes the `?` with it: `a?igsh=x&y=1` normalises to `a&y=1` |
| MdParser.DetectPlatform | src/media_toolkit/parser/md_parser.py:121-132 | the detected platform is one of the five platform values |
| MdParser.DetectPlatformOrder | src/media_toolkit/parser/md_parser.py:121-132 | each platform is detected exactly when its domain occurs in the lower-cased URL and no earlier domain does; "unknown" exactly when none occurs |
| MdParser.DetectedPlatformIsKnown | src/media_toolkit/parser/md_parser.py:121-132 | every detected platform names a member of the platform enumeration |
| MdParser.LinkAt | src/media_toolkit/parser/md_parser.py:32-35 | a match of the combined pattern starts with `http` and runs to the last character that is not whitespace, `]` or `)` |
| MdParser.LinksFrom | src/media_toolkit/parser/md_parser.py:182-183 | every found match is a link text |
| MdParser.SearchLinkSpec | src/media_toolkit/parser/md_parser.py:142 | the search returns the leftmost position where a link starts, and nothing exactly when no link starts anywhere after the given position |
| MdParser.LinksIffFound | src/media_toolkit/parser/md_parser.py:142 | `finditer` yields nothing exactly when `search` finds nothing |
| MdParser.ExtractContext | src/media_toolkit/parser/md_parser.py:135-145 | the loop returns the window's non-blank, link-free stripped lines joined by " \| ", or nothing when there are none |
| MdParser.ContextOneLine | src/media_toolkit/parser/md_parser.py:135-145 | with the default window, the context is the previous line, stripped, when it is non-blank and link-free; the first line has none |
| MdParser.FrontMatterEnd | src/media_toolkit/parser/md_parser.py:167-174 | the front matter, when found, ends at least eight characters in and within the note |
| MdParser.FrontMatterSkipped | src/media_toolkit/parser/md_parser.py:167-179 | when a closing `---` line follows an opening `---`, the lines up to and including it are skipped; a note not starting with `---` skips nothing |
| MdParser.LineLinks | src/media_toolkit/parser/md_parser.py:182-196 | one record per match on the line |
| MdParser.MakeLinks | src/media_toolkit/parser/md_parser.py:182-196 | the records of the matches on a line, in match order |
| MdParser.ParsedLinksFacts | src/media_toolkit/parser/md_parser.py:176-196 | every extracted link names its note, sits on a searched line counted from 1 after the front matter, has the platform detected from its URL, has no trailing punctuation, and carries the previous line's context |
| MdParser.ParseMdFile | src/media_toolkit/parser/md_parser.py:148-198 | a missing note fails with "File not found: " and the path, an unreadable one fails with its error, and a readable one gives its links |
| MdParser.ScanNote | src/media_toolkit/parser/md_parser.py:163-198 | the links of a readable note are those of its lines after the front matter, in order |
| MdParser.ScanLines | src/media_toolkit/parser/md_parser.py:177-196 | the outer loop collects the links of each line from the first searched line on |
| MdParser.ScanLine | src/media_toolkit/parser/md_parser.py:182-196 | the inner loop builds one record per match, in order |
| MdParser.LinkRecord | src/media_toolkit/parser/md_parser.py:183-196 | a record holds the URL without trailing punctuation, its platform, the 1-based line number and the context |
| MdParser.ScanLinksKnown | src/media_toolkit/parser/md_parser.py:187 | every link of every note has a platform of the enumeration |
| MdParser.UrlCollection.constructor | src/media_toolkit/parser/md_parser.py:69-70 | a new collection has no links and no notes |
| MdParser.UrlCollection.Add | src/media_toolkit/parser/md_parser.py:72-75 | exactly one link is appended and its note is added to the notes |
| MdParser.UrlCollection.ByPlatform | src/media_toolkit/parser/md_parser.py:83-88 | the links grouped by platform, platforms in order of first appearance |
| MdParser.UrlCollection.UniqueUrls | src/media_toolkit/parser/md_parser.py:90-98 | the loop keeps the first link of each id, in input order |
| MdParser.ScanDirectory | src/media_toolkit/parser/md_parser.py:201-233 | a path that is not a directory fails with "Not a directory: " and the path; otherwise the new collection holds the links of the notes in the listed order, skipping notes that fail, and its notes are exactly those of its links |
| MdParser.AddAll | src/media_toolkit/parser/md_parser.py:227-228 | adding a note's links appends them in order and keeps the notes those of the links |
| MdParser.UniqueLinks | src/media_toolkit/parser/md_parser.py:90-98 | the kept links have distinct ids, every input id is kept, and they are the first links of their ids in input order |
| MdParser.DetectDuplicates | src/media_toolkit/parser/md_parser.py:236-259 | the report holds the groups by id that have more than one link |
| MdParser.DuplicateCounts | src/media_toolkit/parser/md_parser.py:107-110 | each reported group is every link of its id, at least two; the total of duplicates is the number of links minus the number of ids |
| Grouping.Keys | src/media_toolkit/parser/md_parser.py:94-95 | one key per element, in order |
| Grouping.Repeated | src/media_toolkit/parser/md_parser.py:253-257 | exactly the groups of more than one element are kept, in order |
| Grouping.FirstOfEachKeys | src/media_toolkit/parser/md_parser.py:90-98 | the kept elements have distinct keys, and a key occurs among them exactly when it occurs in the input |
| Grouping.FirstOfEachPositions | src/media_toolkit/parser/md_parser.py:90-98 | the kept elements sit at strictly increasing input positions, and no earlier element has the same key |
| Grouping.AddToGroupContents | src/media_toolkit/parser/md_parser.py:250 | appending to the group of a key changes no other group, and an unseen key gets a new group at the end |
| Grouping.GroupsSpec | src/media_toolkit/parser/md_parser.py:83-88 | the group keys are the distinct keys in order of first appearance, each group holds exactly that key's elements in input order, and together the groups hold every element once |
| Grouping.RepeatedSurplus | src/media_toolkit/parser/md_parser.py:107-110 | the sum of (size - 1) over the repeated groups is the number of elements minus the number of distinct keys |
| Grouping.RepeatedGroups | src/media_toolkit/parser/md_parser.py:253-257 | each repeated group holds every element of its key, and more than one |
| Grouping.FirstOfEachLoop | src/media_toolkit/parser/md_parser.py:92-98 | the `seen`-set loop keeps the first element of each key |
| Grouping.GroupsLoop | src/media_toolkit/parser/md_parser.py:247-250 | the `defaultdict(list)` loop builds the groups by key |
| Tallies.TallyIsSizes | src/media_toolkit/main.py:110-113 | counting the elements per key is taking the sizes of the groups by key |
| Tallies.TallySpec | src/media_toolkit/main.py:110-113 | a counter holds each key once, in order of first appearance, with the number of elements of that key (at least one), and its counts add up to the number of elements |
| Tallies.CountsForBound | src/media_toolkit/storage/db.py:342-352 | counting elements whose key is among distinct buckets counts each element at most once |
| Tallies.TallyLoop | src/media_toolkit/main.py:110-113 | the `counts[k] += 1` loop builds the counter |
| UrlValidator.UrlStatusValueInjective | src/media_toolkit/validator/url_validator.py:11-20 | distinct validation statuses have distinct values |
| UrlValidator.StatusFor | src/media_toolkit/validator/url_validator.py:39-45 | 200, 401, 403, 404 and 429 map to accessible, login required, private, deleted and rate limited, each exactly for its code; every other code maps to unknown; no code maps to timeout |
| UrlValidator.AnyPhrase | src/media_toolkit/validator/url_validator.py:150-156 | the loop that stops at the first phrase found returns true exactly when some phrase occurs |
| UrlValidator.AnalyzeContent | src/media_toolkit/validator/url_validator.py:146-158 | deleted exactly when a deleted phrase occurs ignoring case; private exactly when none does but a private phrase does; accessible exactly when neither kind occurs |
| UrlValidator.DeletedBeforePrivate | src/media_toolkit/validator/url_validator.py:150-156 | a page with both kinds of phrase counts as deleted |
| UrlValidator.AnalyzeContentRange | src/media_toolkit/validator/url_validator.py:146-158 | the body scan only yields accessible, private or deleted |
| UrlValidator.DeletedExample | tests/test_validator.py:53-55 | a page opening with "Page Not Found" is deleted whatever follows |
| UrlValidator.ResponseResult | src/media_toolkit/validator/url_validator.py:100-120 | a response keeps its code and has no error message; a non-200 code gives the mapped status, a 200 with an unreadable body stays accessible, and a 200 with a body gives the body's status |
| UrlValidator.FailureResult | src/media_toolkit/validator/url_validator.py:122-137 | a timeout on the final attempt gives timeout with "Timeout after {timeout}s"; a client error gives unknown with the error's text; neither has a code |
| UrlValidator.ValidationDecided | src/media_toolkit/validator/url_validator.py:97-138 | with at least one attempt allowed, the result is decided by the last attempt made, and at most `max_retries` attempts are made |
| UrlValidator.NoAttempts | src/media_toolkit/validator/url_validator.py:140-144 | with `max_retries <= 0` no attempt is made and the result is unknown with "Max retries exceeded" |
| UrlValidator.FirstResponseEnds | src/media_toolkit/validator/url_validator.py:99-120 | the first attempt that gets a response ends the loop, after exactly that many attempts, with that response's result |
| UrlValidator.AllAttemptsFail | src/media_toolkit/validator/url_validator.py:122-138 | when no attempt gets a response, all `max_retries` are made and the last one's failure is the result |
| UrlValidator.Validate | src/media_toolkit/validator/url_validator.py:77-144 | the retry loop returns the result and attempt count of the attempt-by-attempt definition |
| UrlValidator.BatchValidate | src/media_toolkit/validator/url_validator.py:160-186 | one result per URL, in input order, each the validation of that URL; none for none |
| ScraperBase.NewResult | src/media_toolkit/scraper/base.py:9-41 | a result built from `success` and `url` alone has no author, content, metrics or media, platform "unknown" and no error message |
| ScraperBase.Failure | src/media_toolkit/scraper/base.py:9-41 | a failure result carries the url, the scraper's platform and the message, and nothing else |
| ScraperBase.CookieArgs | src/media_toolkit/scraper/base.py:64-71 | the browser wins over the cookies file; the arguments are empty exactly when neither is set, and otherwise a flag with its value |
| ScraperBase.CleanText | src/media_toolkit/scraper/base.py:99-105 | absent, empty or all-whitespace text gives nothing; otherwise the result is non-empty, has no whitespace at its ends or in runs, and has the same words |
| ScraperBase.CleanTextVisible | src/media_toolkit/scraper/base.py:104 | cleaning keeps every non-whitespace character, in order |
| ScraperBase.CleanTextIdempotent | src/media_toolkit/scraper/base.py:99-105 | cleaning cleaned text changes nothing |
| Counts.RemoveMembers | src/media_toolkit/scraper/base.py:112 | `replace(c, '')` drops every `c`, keeps every other character and leaves text without `c` alone |
| Counts.ParseInt | src/media_toolkit/scraper/base.py:122 | `int()` of text without a sign is never negative |
| Counts.Truncated | src/media_toolkit/scraper/base.py:116-120 | truncating the scaled product keeps its sign |
| Counts.SuffixLetter | src/media_toolkit/scraper/base.py:115-120 | the letter chosen is the first of K, M, B, in that order, that occurs anywhere; there is none exactly when none occurs |
| Counts.ParseCount | src/media_toolkit/scraper/base.py:107-110 | absent or empty text is not a count |
| Counts.CountOfText | src/media_toolkit/scraper/base.py:109-112 | present text is read after stripping, upper-casing and dropping the commas |
| Counts.ParseCountNeedsDigit | src/media_toolkit/scraper/base.py:114-124 | text with no digit gives nothing, never 0 |
| Counts.IntegerCount | src/media_toolkit/scraper/base.py:121-122 | digits alone, with no suffix letter, read as the number they spell |
| Counts.CountWithCommas | src/media_toolkit/scraper/base.py:112-122 | digits with commas read as the number their digits spell |
| Counts.CountWithSuffix | src/media_toolkit/scraper/base.py:115-120 | a whole number followed by K, M or B is that number times 10^3, 10^6 or 10^9 |
| Counts.CountWithDecimalSuffix | src/media_toolkit/scraper/base.py:115-120 | a number with one decimal place and a suffix letter is the exactly scaled value, truncated |
| Counts.PointWithoutSuffix | src/media_toolkit/scraper/base.py:121-124 | a number with a decimal point but no suffix letter gives nothing |
| Counts.DecimalWithoutSuffix | src/media_toolkit/scraper/base.py:121-124 | "a.f" with no suffix letter gives nothing |
| Counts.ThousandExample | tests/test_scraper.py:50-51 | "1000" and "1,000" are 1000 |
| Counts.KiloExample | tests/test_scraper.py:52 | "1.5K" is 1500 |
| Counts.MegaExample | tests/test_scraper.py:53 | "2.3M" is 2300000 |
| Counts.GigaExample | tests/test_scraper.py:54 | "1B" is 10^9 |
| Counts.NoCountExample | tests/test_scraper.py:55-56 | nothing and "invalid" are not counts |
| YtDlp.DumpCommand | src/media_toolkit/scraper/instagram.py:39-47 | the command is `yt-dlp --dump-json --no-download --no-warnings`, then the extra arguments, then the URL last |
| YtDlp.Or | src/media_toolkit/scraper/instagram.py:118-119 | `a or b`: `a` when it is a non-empty string, `b` otherwise |
| YtDlp.Take | src/media_toolkit/scraper/instagram.py:77 | `s[:n]` is the prefix of length `min(n, len(s))` |
| YtDlp.FailedMessage | src/media_toolkit/scraper/instagram.py:62-77 | the message is "yt-dlp failed: " followed by the stripped stderr cut at 200 characters |
| YtDlp.TimeoutMessage | src/media_toolkit/scraper/instagram.py:85-91 | the message reads "Timeout after ", the timeout, and "s" |
| YtDlp.BestFormat | src/media_toolkit/scraper/instagram.py:159 | `max` by height (missing counts as 0) picks the first format of greatest height |
| YtDlp.MediaUrls | src/media_toolkit/scraper/instagram.py:150-161 | at most one media URL: the record's own `url` when the key is there; none when there is no `url` key and no formats |
| YtDlp.MediaUrlFromBest | src/media_toolkit/scraper/instagram.py:155-161 | without a `url` key, the media URL comes from a format of greatest height with no earlier format as high, and there is none when that format has no url |
| YtDlp.PostedAt | src/media_toolkit/scraper/instagram.py:125-141 | an eight-character upload date that parses gives the time; otherwise a non-zero timestamp that converts; with neither there is no time |
| YtDlp.TimestampOnlyAsFallback | src/media_toolkit/scraper/instagram.py:134-135 | when the upload date gives a time, the timestamp is not consulted |
| Instagram.SupportsIff | src/media_toolkit/scraper/instagram.py:19-28 | a URL is supported exactly when it contains one of `instagram.com/p/`, `/reel/`, `/stories/`, `/tv/`, ignoring case |
| Instagram.Command | src/media_toolkit/scraper/instagram.py:39-47 | the command has the cookie arguments between the fixed flags and the URL |
| Instagram.ExitMessage | src/media_toolkit/scraper/instagram.py:61-78 | "Private or login required" exactly when the lower-cased stderr mentions login or private; otherwise the "yt-dlp failed" message |
| Instagram.ParseInfo | src/media_toolkit/scraper/instagram.py:114-183 | a successful "instagram" result: author falls back from uploader to channel, author url from uploader url to channel url, title and content cleaned, the metrics and thumbnail passed through, no shares, at most one media URL, and "image" exactly for a `/p/` URL without a non-zero duration, else "video" |
| Instagram.RunFailure | src/media_toolkit/scraper/instagram.py:61-112 | there is a failure message exactly when the run does not end with exit code 0 and a JSON record |
| Instagram.Scrape | src/media_toolkit/scraper/instagram.py:30-112 | `scrape` never raises: it succeeds exactly when the tool exits 0 with a JSON record, which is then parsed; every other outcome is a failure result with that outcome's message |
| Facebook.SupportsIff | src/media_toolkit/scraper/facebook.py:18-28 | the pattern list holds exactly when the URL, lower-cased, contains `facebook.com/share/` then r or v then `/`, `facebook.com/watch`, `facebook.com/reel/`, `facebook.com/` then at least one character on the same line then `/videos/`, or `fb.watch/` |
| Facebook.Command | src/media_toolkit/scraper/facebook.py:39-45 | the command has no cookie arguments |
| Facebook.ExitMessage | src/media_toolkit/scraper/facebook.py:58-75 | "Login required or private post" exactly when the lower-cased stderr mentions login, private or sign in; otherwise the "yt-dlp failed" message |
| Facebook.ParseInfo | src/media_toolkit/scraper/facebook.py:111-178 | a successful "facebook" result: author falls back from uploader to channel, author url is the uploader url with no fallback, shares come from `repost_count`, and "image" exactly when the duration is absent or zero, whatever the URL |
| Facebook.RunFailure | src/media_toolkit/scraper/facebook.py:58-109 | there is a failure message exactly when the run does not end with exit code 0 and a JSON record |
| Facebook.Scrape | src/media_toolkit/scraper/facebook.py:30-109 | `scrape` never raises: it succeeds exactly when the tool exits 0 with a JSON record, which is then parsed; every other outcome is a failure result with that outcome's message |
| Html.FetchFailure | src/media_toolkit/scraper/threads.py:37-64 | no message exactly for a 200 page; "HTTP {status}" for another status, "Network error: " and the text for a client error, the exception's text otherwise |
| Html.ScrapePage | src/media_toolkit/scraper/threads.py:26-64 | a 200 page is parsed; any other outcome is a failure result for the platform with that outcome's message, and nothing raises |
| Html.MetaValueUnquoted | src/media_toolkit/scraper/threads.py:103-111 | a value captured by `([^"]*)` never holds a double quote |
| Html.Counter | src/media_toolkit/scraper/threads.py:81-87 | a counter is the digits the pattern captures, so it is never negative, and there is one only when the pattern is found |
| Threads.SupportsIff | src/media_toolkit/scraper/threads.py:17-24 | the two patterns hold, case-sensitively, exactly when the URL has `threads.net/@`, a handle of word characters and dots, `/post/` and an id character, or `threads.net/t/` and an id character |
| Threads.Handle | src/media_toolkit/scraper/threads.py:69 | the handle is the longest run of word characters and dots after `threads.net/@` |
| Threads.HandleMatch | src/media_toolkit/scraper/threads.py:69 | the author pattern matches exactly where a handle starts, and captures the whole handle |
| Threads.Author | src/media_toolkit/scraper/threads.py:69-70 | "@" and the handle at the first place the URL has `threads.net/@` followed by a handle; none exactly when there is no such place |
| Threads.ParseHtml | src/media_toolkit/scraper/threads.py:66-99 | always a successful "threads" result with the URL's author, the cleaned og:title and og:description, og:image as thumbnail, the likeCount and replyCount counters (never negative), and no media, views, shares or post time |
| Threads.ExtractMeta | src/media_toolkit/scraper/threads.py:101-111 | the property-then-content form is tried first, then content-then-property; the value holds no quote |
| Threads.Scrape | src/media_toolkit/scraper/threads.py:26-64 | succeeds exactly for a 200 page, which is parsed; otherwise a failure with the fetch outcome's message |
| LinkedIn.SupportsIff | src/media_toolkit/scraper/linkedin.py:17-26 | a URL is supported exactly when it contains, case-sensitively, one of `linkedin.com/posts/`, `/feed/update/`, `/pulse/`, `/video/` |
| LinkedIn.TitleAuthor | src/media_toolkit/scraper/linkedin.py:79-81 | a captured author is non-empty |
| LinkedIn.TitleAuthorShortest | src/media_toolkit/scraper/linkedin.py:79-81 | the captured author is the shortest single-line prefix of the title followed by " on LinkedIn", and there is one exactly when some prefix is |
| LinkedIn.ExtractMeta | src/media_toolkit/scraper/linkedin.py:111-128 | property-then-content, then content-then-property, then name-then-content, the first that matches; the value holds no quote |
| LinkedIn.Author | src/media_toolkit/scraper/linkedin.py:75-85 | the shortest " on LinkedIn" prefix of a non-empty og:title when there is one, otherwise the article:author meta |
| LinkedIn.ParseHtml | src/media_toolkit/scraper/linkedin.py:68-109 | always a successful "linkedin" result with that author, the cleaned og:title and og:description, og:image as thumbnail, the numLikes and numComments counters (never negative), and no media |
| LinkedIn.Scrape | src/media_toolkit/scraper/linkedin.py:28-66 | succeeds exactly for a 200 page, which is parsed; otherwise a failure with the fetch outcome's message |
| Regex.SearchFrom | src/media_toolkit/scraper/linkedin.py:114-115 | `re.search` reports the match at the leftmost position that has one, and nothing exactly when no position matches |
| Regex.RepeatMatch | src/media_toolkit/scraper/threads.py:81 | a greedy repetition followed by the rest matches exactly when some run of at least `min` class characters is followed by a match of the rest |
| Regex.BacktrackLazy | src/media_toolkit/scraper/linkedin.py:79 | a lazy group takes the shortest length that lets the rest of the pattern match |
| Regex.LiteralFound | src/media_toolkit/scraper/instagram.py:28 | a pattern of one literal is found exactly where `in` holds, ignoring case under IGNORECASE |
| Regex.DigitGroup | src/media_toolkit/scraper/threads.py:81-83 | a group of `\d+` is all digits |
| Factory.ClassPlatform | src/media_toolkit/scraper/factory.py:76-77 | a registered class's platform is its own `platform` attribute |
| Factory.FirstSupporting | src/media_toolkit/scraper/factory.py:32-36 | the first listed class whose `supports` holds, and none exactly when no class supports the URL |
| Factory.ScrapeUrlWith | src/media_toolkit/scraper/factory.py:50-59 | with no matching scraper, a failure with the same URL, "No scraper available for this URL type" and platform "unknown"; otherwise exactly the chosen scraper's result |
| Factory.RegisteredKeepsOrder | src/media_toolkit/scraper/factory.py:62-70 | registering keeps the list duplicate-free and its order, adds the class if it was absent and nothing else |
| Factory.DispatchKept | src/media_toolkit/scraper/factory.py:32-36 | registering a class never changes a dispatch that an already listed class takes |
| Factory.Registry.constructor | src/media_toolkit/scraper/factory.py:13-18 | the registry starts with Instagram, Facebook, Threads and LinkedIn, in that order |
| Factory.Registry.Register | src/media_toolkit/scraper/factory.py:62-70 | `register_scraper` appends the class unless it is listed |
| Factory.Registry.GetScraper | src/media_toolkit/scraper/factory.py:21-36 | the loop returns the first listed class whose `supports` holds, or none |
| Factory.Registry.ScrapeUrl | src/media_toolkit/scraper/factory.py:39-59 | the chosen scraper's result, or the no-scraper failure |
| Factory.Registry.ListSupportedPlatforms | src/media_toolkit/scraper/factory.py:73-78 | sorted, duplicate-free, exactly the platforms of the listed classes, and it includes instagram and facebook |
| Extractor.AllExtractors | src/media_toolkit/extractor/__init__.py:8-12 | the yt-dlp extractor, then the generic image extractor; both accept every URL |
| Extractor.LogFor | src/media_toolkit/extractor/__init__.py:24-37 | a log line exactly for an extractor that is tried and yields no items, whether it returned nothing or raised |
| Extractor.FirstHit | src/media_toolkit/extractor/__init__.py:23-33 | the first extractor that yields items, and none exactly when no extractor does |
| Extractor.LogsWhenNothingFound | src/media_toolkit/extractor/__init__.py:24-39 | with no extractor yielding items there is exactly one log line per extractor tried |
| Extractor.ExtractOutcome | src/media_toolkit/extractor/__init__.py:20-39 | the items of the first extractor that yields some, with no logs; otherwise no items and one log line for each of the two extractors, in order |
| Extractor.ExtractMedia | src/media_toolkit/extractor/__init__.py:14-39 | the loop returns the items and logs of the first-success dispatch |
| PathNames.LastIndex | src/media_toolkit/downloader/general_downloader.py:84 | the position of the last occurrence, none exactly when there is none |
| PathNames.SuffixShape | src/media_toolkit/downloader/general_downloader.py:84 | `stem + suffix` is the name; a suffix is empty or a dot followed by at least one character and no further dot; a name with a suffix has a non-empty stem |
| GeneralDownloader.LastSegmentShape | src/media_toolkit/downloader/general_downloader.py:60 | the last segment has no '/', ends the URL, and is preceded by '/' unless it is the whole URL |
| GeneralDownloader.BeforeQueryShape | src/media_toolkit/downloader/general_downloader.py:61-62 | the cut is a prefix without '?', ended early only by a '?' |
| GeneralDownloader.BaseName | src/media_toolkit/downloader/general_downloader.py:57-62 | the title when it is non-empty and at most 50 characters; otherwise the URL's last segment cut at the first '?', which holds no '/' or '?' |
| GeneralDownloader.ExtensionFor | src/media_toolkit/downloader/general_downloader.py:65-74 | always one of .jpg, .png, .gif: .jpg when the content type mentions jpeg or jpg, .png exactly when it mentions png and neither of those, .gif exactly when it mentions gif and none of the others |
| GeneralDownloader.WithExtension | src/media_toolkit/downloader/general_downloader.py:64-74 | a name with a dot is kept; a name without one gets the extension for its content type, so the result has a dot |
| GeneralDownloader.KeepAllowed | src/media_toolkit/downloader/general_downloader.py:77 | only allowed characters are kept, and a name of allowed characters is unchanged |
| GeneralDownloader.KeepAllowedCounts | src/media_toolkit/downloader/general_downloader.py:77 | each allowed character is kept as often as it occurs, every other one is dropped |
| GeneralDownloader.KeepAllowedAppend | src/media_toolkit/downloader/general_downloader.py:77 | filtering a concatenation filters each part in place, so the kept characters stay in their order |
| GeneralDownloader.CleanName | src/media_toolkit/downloader/general_downloader.py:77 | the cleaned name is the filtered name (letters, digits and ` ._-()`) with its trailing spaces removed and nothing else: it has no trailing space and adding spaces back gives the filtered name |
| GeneralDownloader.CleanNameIdempotent | src/media_toolkit/downloader/general_downloader.py:77 | cleaning a clean name changes nothing |
| GeneralDownloader.CandidatesDiffer | src/media_toolkit/downloader/general_downloader.py:84 | different counters give different candidate names |
| GeneralDownloader.FirstFreeFrom | src/media_toolkit/downloader/general_downloader.py:83-85 | the first counter whose candidate is free; all earlier candidates are taken |
| GeneralDownloader.ChooseName | src/media_toolkit/downloader/general_downloader.py:80-85 | the chosen name is free, and is the name itself when that is free |
| GeneralDownloader.ChooseNameSmallest | src/media_toolkit/downloader/general_downloader.py:80-85 | a taken name gives `stem_k` plus the suffix for the smallest counter `k` whose candidate is free |
| GeneralDownloader.ImagePlace | src/media_toolkit/downloader/general_downloader.py:76-85 | a cleaned name that is empty or "." is the save directory itself, so the file lands beside it under a name free in the parent; any other name goes into the directory under the collision loop's choice, which is free there |
| GeneralDownloader.ImageStep | src/media_toolkit/downloader/general_downloader.py:52-89 | a failed request or an error status changes nothing; otherwise exactly one new name is added, as a file of the response's size or as a name beside the directory, and nothing else changes |
| GeneralDownloader.ImageNoOverwrite | src/media_toolkit/downloader/general_downloader.py:80-89 | an image download never overwrites: the new file's name was free and every other entry is as it was |
| GeneralDownloader.ItemStep | src/media_toolkit/downloader/general_downloader.py:25-31 | items that are neither videos nor images change nothing |
| GeneralDownloader.SkippedItems | src/media_toolkit/downloader/general_downloader.py:25-28 | a list of items of other types leaves the directories as they are |
| GeneralDownloader.ItemsKeepFiles | src/media_toolkit/downloader/general_downloader.py:18-31 | downloading only adds files: none disappears |
| GeneralDownloader.DownloadManager.constructor | src/media_toolkit/downloader/general_downloader.py:12-16 | the save directory exists afterwards and nothing else changes |
| GeneralDownloader.DownloadManager.FreeName | src/media_toolkit/downloader/general_downloader.py:80-85 | the collision loop ends with the chosen name |
| GeneralDownloader.DownloadManager.DownloadImage | src/media_toolkit/downloader/general_downloader.py:52-89 | the directories change as one image step says |
| GeneralDownloader.DownloadManager.DownloadItems | src/media_toolkit/downloader/general_downloader.py:18-31 | every item is handled in order, a failing one does not stop the rest, and one progress line "Downloading i/n: title" is reported per item |
| MediaDownloader.Failed | src/media_toolkit/downloader/media_downloader.py:14-33 | a failed `DownloadResult` carries the URL, the post id and the message, no paths, no thumbnail and size 0 |
| MediaDownloader.Put | src/media_toolkit/downloader/media_downloader.py:177-182 | writing a file sets its size and changes no other file and no directory |
| MediaDownloader.Unlink | src/media_toolkit/downloader/media_downloader.py:226 | removing a file removes it and changes no other file and no directory |
| MediaDownloader.ProcessThumbnail | src/media_toolkit/downloader/media_downloader.py:208-238 | a destination path is returned exactly when the source exists and either the resize works or the copy is to another file; the destination then holds the resized image or the copy; a different source is removed; on failure nothing changes; no other file changes |
| MediaDownloader.PartitionEmpty | src/media_toolkit/downloader/media_downloader.py:131 | the media and image names of a listing are both empty exactly when the listing is |
| MediaDownloader.ScanMedia | src/media_toolkit/downloader/media_downloader.py:126-136 | the media files found are the listed names that are not images, in listing order |
| MediaDownloader.ScanKeeps | src/media_toolkit/downloader/media_downloader.py:126-136 | a file of the media directory not yet visited keeps its place and size |
| MediaDownloader.ScanTotal | src/media_toolkit/downloader/media_downloader.py:127-128 | the total size is the sum of the sizes of every listed file, images included |
| MediaDownloader.ScanThumb | src/media_toolkit/downloader/media_downloader.py:130-134 | there is a thumbnail exactly when some listed file is an image, and it is the post's `.jpg` in the thumbnail directory, which exists |
| MediaDownloader.DownloadCommand | src/media_toolkit/downloader/media_downloader.py:88-101 | the yt-dlp options, the output template and the URL, then `--cookies-from-browser` with the browser exactly when one is given |
| MediaDownloader.ThumbnailCommand | src/media_toolkit/downloader/media_downloader.py:269-282 | yt-dlp with `--skip-download`, the thumbnail named after the post, the URL, then the cookie browser exactly when one is given |
| MediaDownloader.WriteAllKeeps | src/media_toolkit/downloader/media_downloader.py:83-88 | files written into the author's sub-directory leave the entries directly in the media directory as they were |
| MediaDownloader.ToolOutputNeverListed | src/media_toolkit/downloader/media_downloader.py:88-126 | what yt-dlp writes under the author's sub-directory is never found by the `{post_id}.*` lookup in the media directory: the lookup's result is the same before and after |
| MediaDownloader.FallbackName | src/media_toolkit/downloader/media_downloader.py:169-172 | `post_i.ext` for the `i`-th of several URLs, `post.ext` for a single one, with `mp4` exactly when the URL mentions mp4 and `jpg` otherwise |
| MediaDownloader.FallbackNamesDiffer | src/media_toolkit/downloader/media_downloader.py:172 | with several URLs, different positions give different file names |
| MediaDownloader.FallbackNamesListed | src/media_toolkit/downloader/media_downloader.py:168-172 | a single URL's file matches the post's lookup; the numbered files of several URLs never do |
| MediaDownloader.FallbackStops | src/media_toolkit/downloader/media_downloader.py:165-199 | after an exception ends the fallback loop, later URLs change nothing |
| MediaDownloader.FallbackNoError | src/media_toolkit/downloader/media_downloader.py:165-199 | the fallback loop ends without an exception exactly when every request got a reply |
| MediaDownloader.FallbackKept | src/media_toolkit/downloader/media_downloader.py:175-185 | without an exception, some file is kept exactly when some reply had status 200 |
| MediaDownloader.BothFailedMessage | src/media_toolkit/downloader/media_downloader.py:198 | the message starts "Both yt-dlp and fallback failed: " |
| MediaDownloader.DownloadFound | src/media_toolkit/downloader/media_downloader.py:121-153 | after a clean exit the download succeeds exactly when the lookup lists a file; then the media are the non-image files in order, the size is the sum over all listed files and there is a thumbnail exactly when some file is an image; otherwise the error is "No files downloaded" |
| MediaDownloader.DownloadToolFailed | src/media_toolkit/downloader/media_downloader.py:112-161 | a missing yt-dlp fails with "yt-dlp not installed" after only the directory is made; a non-zero exit fails with "yt-dlp failed: " and the first 200 characters of the trimmed error output, keeping what the tool wrote |
| MediaDownloader.DownloadFellBack | src/media_toolkit/downloader/media_downloader.py:162-206 | any other exception without media URLs fails with its text; with media URLs, success exactly when every request got a reply and one had status 200; any other failure carries the exception's text or the "Both … failed" message |
| MediaDownloader.DownloadAsWritten | src/media_toolkit/downloader/media_downloader.py:82 | as written, `download` raises before doing anything, because `_sanitize_filename` is not defined on the class |
| MediaDownloader.FirstPresent | src/media_toolkit/downloader/media_downloader.py:294-296 | the first of jpg, jpeg, webp, png whose thumbnail file exists; none exactly when none exists |
| MediaDownloader.ThumbnailOnlyExists | src/media_toolkit/downloader/media_downloader.py:253-307 | a returned path is always the post's `.jpg` thumbnail and it then exists; a path is returned exactly when the tool ran and a thumbnail of one of the four formats exists |
| MediaDownloader.DeleteRemovesPost | src/media_toolkit/downloader/media_downloader.py:339-362 | exactly the post's files in the media directory and its thumbnail are removed, the others keep their sizes, and the result says whether any of them was there |
| MediaDownloader.DeleteLeavesNothing | src/media_toolkit/downloader/media_downloader.py:352-354 | after deleting, the lookup for the post finds nothing |
| MediaDownloader.MediaFilesOfPost | src/media_toolkit/downloader/media_downloader.py:322-337 | the media files of a post are exactly its listed files that are not images |
| MediaDownloader.GetThumbnail | src/media_toolkit/downloader/media_downloader.py:309-320 | the post's `.jpg` thumbnail exactly when it exists |
| MediaDownloader.MediaDownloader.constructor | src/media_toolkit/downloader/media_downloader.py:39-59 | both directories exist and the files are as given |
| MediaDownloader.MediaDownloader.ProcessThumb | src/media_toolkit/downloader/media_downloader.py:208-238 | the disk and the result are those of the thumbnail step |
| MediaDownloader.MediaDownloader.SortFiles | src/media_toolkit/downloader/media_downloader.py:122-136 | the classification loop ends in the state the scan specification gives |
| MediaDownloader.MediaDownloader.FetchAll | src/media_toolkit/downloader/media_downloader.py:166-183 | the fallback loop ends in the state its specification gives |
| MediaDownloader.MediaDownloader.Download | src/media_toolkit/downloader/media_downloader.py:61-206 | with a sanitizer given for the missing helper, the disk and the result are those of the download specification |
| MediaDownloader.MediaDownloader.DownloadThumbnailOnly | src/media_toolkit/downloader/media_downloader.py:253-307 | the disk and the result are those of the thumbnail-only specification |
| MediaDownloader.MediaDownloader.GetMediaFiles | src/media_toolkit/downloader/media_downloader.py:322-337 | the listed files without the images |
| MediaDownloader.MediaDownloader.DeleteMedia | src/media_toolkit/downloader/media_downloader.py:339-362 | the disk and the flag are those of the delete specification, and the post has no thumbnail afterwards |
| Sorting.ListLessTransitive | src/media_toolkit/storage/db.py:191-198 | Python's lexicographic order on lists of strings is transitive |
| Sorting.ListLessTotal | src/media_toolkit/storage/db.py:191-198 | any two different lists of strings are ordered one way or the other |
| Sorting.KeyLessTransitive | src/media_toolkit/storage/db.py:191-198 | the key order is transitive |
| Sorting.KeyLessTotal | src/media_toolkit/storage/db.py:191-198 | any two different keys are ordered one way or the other |
| Sorting.Insert | src/media_toolkit/storage/db.py:199-202 | inserting adds exactly the element |
| Sorting.SortBy | src/media_toolkit/storage/db.py:199-202 | the sort is a permutation of its input |
| Sorting.InsertSorted | src/media_toolkit/storage/db.py:199-202 | inserting into a sorted list keeps it sorted |
| Sorting.SortSorted | src/media_toolkit/storage/db.py:199-202 | the result is sorted by the key, ascending or, with `reverse`, descending |
| Sorting.InsertStable | src/media_toolkit/storage/db.py:199-202 | an inserted element goes after every element with its key |
| Sorting.SortStable | src/media_toolkit/storage/db.py:199-202 | elements with equal keys keep their input order, in both directions |
| DbStore.Projection | src/media_toolkit/storage/db.py:94-110 | the index entry records media exactly when the record has media paths |
| DbStore.Stored | src/media_toolkit/storage/db.py:60-91 | the file written for a record holds it with its content made present ("" when absent) and stripped of surrounding whitespace, as the front-matter reader returns it, and its note kept only when non-empty; nothing else differs |
| DbStore.Load | src/media_toolkit/storage/db.py:114-140 | a record comes back exactly when its file exists, parses and passes validation, and is then the file's record |
| DbStore.SaveIndex | src/media_toolkit/storage/db.py:53-112 | after saving, the id exists with the record's projection as its entry; every other id keeps its entry and its existence; the count grows by one exactly for a new id, which is appended to the key order |
| DbStore.SaveThenGet | src/media_toolkit/storage/db.py:53-140 | loading a saved record gives it back, content made present and stripped and an empty note dropped, exactly when it passes validation; every other record loads as before |
| DbStore.StoredRoundTrip | src/media_toolkit/storage/db.py:60-91 | saving a loaded record writes the same file, the index entry is unaffected, and a record survives unchanged exactly when it has content without surrounding whitespace and no empty note |
| DbStore.StripBodyShape | src/media_toolkit/storage/db.py:124-130 | the content read back is the stored content with its leading and trailing whitespace removed: a slice of it with no space at either end and only spaces around it |
| DbStore.SaveConsistent | src/media_toolkit/storage/db.py:53-112 | saving keeps every index entry the projection of its loadable file |
| DbStore.DeleteSpec | src/media_toolkit/storage/db.py:142-161 | false and nothing changed when the file is absent; otherwise true, and the id neither exists nor loads afterwards while every other id is untouched |
| DbStore.DeleteConsistent | src/media_toolkit/storage/db.py:142-161 | deleting keeps the index consistent with the files |
| DbStore.UpdateTagsSpec | src/media_toolkit/storage/db.py:288-305 | false and nothing changed for a record that does not load; otherwise the record loads back with the new tags and nothing else about any other record changes |
| DbStore.UpdateCategorySpec | src/media_toolkit/storage/db.py:307-324 | the same for the category |
| DbStore.CountIsSize | src/media_toolkit/storage/db.py:378-380 | the count is the number of index entries |
| DbStore.RebuiltKeys | src/media_toolkit/storage/db.py:382-422 | after rebuilding, exactly the listed files that load are indexed, each by its record's projection |
| DbStore.RebuiltWellNamed | src/media_toolkit/storage/db.py:382-422 | over a listing of files named by their post ids, the rebuilt index is valid, consistent with the files, holds exactly the loadable files, and the number returned is its size |
| DbQuery.PlatformValues | src/media_toolkit/storage/db.py:223 | each requested platform by its stored value, in order |
| DbQuery.StatusValues | src/media_toolkit/storage/db.py:228 | each requested status by its stored value, in order |
| DbQuery.AsWrittenAgrees | src/media_toolkit/storage/db.py:218-261 | with both date bounds or neither, the filter as written decides as intended |
| DbQuery.AsWrittenRaises | src/media_toolkit/storage/db.py:247-254 | as written, the filter raises exactly for an entry that passes the other criteria and `posted_after` when `posted_before` is absent |
| DbQuery.AsWrittenIgnoresBefore | src/media_toolkit/storage/db.py:247-254 | as written, `posted_before` on its own is never applied: a later entry still matches |
| DbQuery.Page | src/media_toolkit/storage/db.py:204-207 | the slice `[offset:offset+limit]` clamped to the list: its length and its elements |
| DbQuery.FilterOr | src/media_toolkit/storage/db.py:177-178 | the filter given, or the default one |
| DbQuery.MatchingComplete | src/media_toolkit/storage/db.py:181-186 | every indexed id in key order whose entry matches is taken |
| DbQuery.SortedRowsSpec | src/media_toolkit/storage/db.py:188-202 | when the sort does not raise, the sorted rows are the matching rows rearranged, sorted by the sort key (reversed for `sort_desc`), with rows of equal key in index order |
| DbQuery.PageRowsSpec | src/media_toolkit/storage/db.py:204-207 | the page holds matching index rows, still in sort order |
| DbQuery.LoadAllFrom | src/media_toolkit/storage/db.py:209-214 | each record returned was loaded from one of the page's ids |
| DbQuery.ListingBounded | src/media_toolkit/storage/db.py:167-216 | at most `limit` records are returned |
| DbQuery.ListingMatches | src/media_toolkit/storage/db.py:167-216 | with the index consistent with the files, every record returned matches the filter |
| DbQuery.ListingSorted | src/media_toolkit/storage/db.py:188-216 | with the index consistent with the files, the records come back in sort order |
| DbQuery.ListResultScalar | src/media_toolkit/storage/db.py:188-202 | sorting by a field other than `tags` and `has_media` never raises: the listing is returned |
| DbQuery.ListResultTags | src/media_toolkit/storage/db.py:188-202 | sorting by `tags` raises `TypeError` exactly when one matching entry has no tags (key `""`) and another has some (a list key) |
| DbQuery.ListResultHasMedia | src/media_toolkit/storage/db.py:188-202 | sorting by `has_media` raises `TypeError` exactly when one matching entry has no media (key `""`) and another has some (key `True`) |
| DbStats.EntriesOfStep | src/media_toolkit/storage/db.py:338 | the entries in key order, one more id at a time |
| DbStats.CountedAppend | src/media_toolkit/storage/db.py:338-365 | the loop body keeps every counter equal to its definition |
| DbStats.Prefix | src/media_toolkit/storage/db.py:369 | `[:20]`: a prefix of length at most 20, the whole list when shorter |
| DbStats.BucketsAreCounts | src/media_toolkit/storage/db.py:342-352 | the five status buckets count the entries of each status |
| DbStats.StatsTotals | src/media_toolkit/storage/db.py:338-367 | `total_posts` and `unique_posts` are both the number of index entries |
| DbStats.StatsBuckets | src/media_toolkit/storage/db.py:342-365 | each entry lands in at most one status bucket, and at most every entry counts as having media |
| DbStats.StatsPlatforms | src/media_toolkit/storage/db.py:355-356 | each platform once, in order of first appearance, with its number of entries, the counts adding up to the total |
| DbStats.RankedCounts | src/media_toolkit/storage/db.py:369 | sorting by `-count` ascending puts counts in non-increasing order |
| DbStats.TopAuthorsBest | src/media_toolkit/storage/db.py:369 | no author left out of the top 20 has a higher count than one kept |
| DbStats.StatsTopAuthors | src/media_toolkit/storage/db.py:358-369 | at most 20 authors, in non-increasing order of count, none left out counting more than one kept, each with the number of its entries |
| DbStats.RowsOf | src/media_toolkit/storage/db.py:470-475 | one author row per group, with its size and its sums of likes and comments |
| DbStats.AuthorTableSpec | src/media_toolkit/storage/db.py:468-475 | one row per author ("Unknown" for none), in order of first appearance, with that author's number of entries and sums of likes and comments, missing ones as 0 |
| DbStats.AnalyticsCounts | src/media_toolkit/storage/db.py:454-461 | the platform counts and the status counts each have one key per value and add up to the number of entries |
| DbStats.AnalyticsMediaTypes | src/media_toolkit/storage/db.py:463-466 | the three media-type counts count each entry at most once |
| DbStats.AnalyticsAuthors | src/media_toolkit/storage/db.py:477-482 | `author_stats` is the author table reordered, highest count first, equal counts in order of first appearance |
| DbStats.IndexTags | src/media_toolkit/storage/db.py:263-268 | exactly the tags some indexed entry carries |
| DbStats.IndexCategories | src/media_toolkit/storage/db.py:270-277 | exactly the non-empty categories of indexed entries |
| DbStats.IndexAuthors | src/media_toolkit/storage/db.py:279-286 | exactly the non-empty authors of indexed entries |
| Db.Database.constructor | src/media_toolkit/storage/db.py:17-42 | the index read from the index file when there is one, and an empty index otherwise |
| Db.Database.SavePost | src/media_toolkit/storage/db.py:53-112 | the new state is that of the save specification, and the key order stays duplicate-free |
| Db.Database.GetPost | src/media_toolkit/storage/db.py:114-140 | the record the load specification gives |
| Db.Database.DeletePost | src/media_toolkit/storage/db.py:142-161 | the new state and the flag are those of the delete specification |
| Db.Database.Exists | src/media_toolkit/storage/db.py:163-165 | true exactly when the id is indexed |
| Db.Database.Count | src/media_toolkit/storage/db.py:378-380 | the number of index entries |
| Db.Database.ListPosts | src/media_toolkit/storage/db.py:167-216 | the records the listing specification gives, or the `TypeError` of a sort over keys of different types |
| Db.Database.GetAllTags | src/media_toolkit/storage/db.py:263-268 | every tag of an indexed entry, once each, in increasing order |
| Db.Database.GetAllCategories | src/media_toolkit/storage/db.py:270-277 | every non-empty category of an indexed entry, once each, in increasing order |
| Db.Database.GetAllAuthors | src/media_toolkit/storage/db.py:279-286 | every non-empty author of an indexed entry, once each, in increasing order |
| Db.Database.UpdateTags | src/media_toolkit/storage/db.py:288-305 | the new state and the flag are those of the retagging specification |
| Db.Database.UpdateCategory | src/media_toolkit/storage/db.py:307-324 | the same for the category |
| Db.Database.GetStats | src/media_toolkit/storage/db.py:326-376 | the statistics the specification gives |
| Db.Database.Reindex | src/media_toolkit/storage/db.py:382-422 | the state of the rebuild specification, the record files untouched; with well-named files the index is consistent, holds exactly the loadable files, and the count returned is its size |
| Db.Database.GetAnalytics | src/media_toolkit/storage/db.py:443-484 | the analytics the specification gives |
| Db.AnalyticsAppend | src/media_toolkit/storage/db.py:454-475 | the loop body keeps each of the four reports equal to its definition |
| Stages.ErrorLine | src/media_toolkit/viewer/server.py:503-504 | the error line `"<id>: <message>"` starts with the record's id, and its length is that of id, separator and message |
| Stages.StageOut | src/media_toolkit/viewer/server.py:483-507 | one candidate out per candidate in |
| Stages.StageValid | src/media_toolkit/viewer/server.py:483-507 | a stage keeps the index well formed |
| Stages.StageCounts | src/media_toolkit/viewer/server.py:483-507 | one error line per failed item, at most one live-view row per saved item, and failures and saves together no more than the items |
| Stages.StageUntouched | src/media_toolkit/viewer/server.py:487-505 | a record no item saves keeps its index entry and its file: a failed item changes nothing and the loop goes on |
| Stages.SaveOther | src/media_toolkit/viewer/server.py:501 | a later save of another id leaves a record's entry and file as they were |
| Stages.StageSaved | src/media_toolkit/viewer/server.py:483-507 | with distinct candidates, a saved item ends up indexed by the projection of its saved version, and loads as that version as written when it passes validation |
| Stages.StageNext | src/media_toolkit/viewer/server.py:483-507 | the store, errors and live-view rows over one more item |
| Stages.StageNoRecent | src/media_toolkit/viewer/server.py:483-507 | a stage whose items add no live-view row leaves the live view as it was |
| Stages.Apply | src/media_toolkit/viewer/server.py:484-505 | item `i` sets progress `i + 1` and its message, then applies its one outcome: the save, the error line or the live-view row |
| Stages.RunItems | src/media_toolkit/viewer/server.py:483-507 | the loop over the candidates ends with the store, the errors, the live-view rows and the candidates the stage's folds give, and progress at the number of items |
| Stages.RecordStatus | src/media_toolkit/viewer/server.py:491-498 | accessible to accessible; private and login-required to private; deleted to deleted; every other result to failed; never pending |
| Stages.ValidatedRecord | src/media_toolkit/viewer/server.py:483-505 | after validation, a record whose check returned has the mapped status (never pending), the check's time and its error message; one whose check raised is untouched |
| Stages.ValidateTask | src/media_toolkit/viewer/server.py:475-510 | the validation task runs every candidate, ends not running, named "Validating URLs" with message "Validation complete", progress and total at the number of candidates |
| Stages.WithScrape | src/media_toolkit/viewer/server.py:560-573 | a successful scrape's fields are copied, the scrape time is set, and id, URL, status, tags and media paths are kept |
| Stages.WithThumb | src/media_toolkit/viewer/server.py:575-581 | the thumbnail path changes only when the scrape found a thumbnail URL and a path came back, and then to that path |
| Stages.RecentOf | src/media_toolkit/viewer/server.py:584-593 | the live-view row of a record, with its content cut to at most 100 characters, a prefix, present exactly when the content is non-empty |
| Stages.ScrapedRecord | src/media_toolkit/viewer/server.py:549-600 | after scraping, a record whose scrape returned keeps its status; a successful one gets the scrape time and author; a failed one its error message; one whose scrape raised is untouched |
| Stages.ScrapeRows | src/media_toolkit/viewer/server.py:584-600 | error lines and live-view rows together never outnumber the items |
| Stages.ScrapeTask | src/media_toolkit/viewer/server.py:540-606 | the scraping task runs every candidate, ends not running, named "Scraping metadata" with message "Scraping complete", and appends the live-view rows |
| Stages.DownloadedRecord | src/media_toolkit/viewer/server.py:697-705 | a record whose download succeeds is indexed as having media exactly when paths came back; every other record is untouched |
| Stages.DownloadTask | src/media_toolkit/viewer/server.py:685-759 | a download task runs every candidate and ends not running, with its own name and closing message |
| Stages.DownloadTaskAsWritten | src/media_toolkit/viewer/server.py:685-759 | with `download` as written, a download task saves nothing and records one `AttributeError` line per candidate, in order |
| Stages.StatusFilter | src/media_toolkit/viewer/server.py:469 | a valid filter for the one status with limit 500 |
| Stages.Unscraped | src/media_toolkit/viewer/server.py:535 | exactly the records not yet scraped |
| Stages.WithoutMedia | src/media_toolkit/viewer/server.py:728 | exactly the records without media paths |
| Stages.ListedStatus | src/media_toolkit/viewer/server.py:469-470 | with a consistent index, at most 500 records, all of the status asked for |
| Stages.RequestedCandidates | src/media_toolkit/viewer/server.py:465-466 | requested candidates are records that load under the requested ids; validation and scraping pick the same ones |
| Stages.DefaultValidateCandidates | src/media_toolkit/viewer/server.py:467-470 | without a request, at most 500 records, all pending |
| Stages.DefaultScrapeCandidates | src/media_toolkit/viewer/server.py:532-535 | without a request, at most 500 records, all accessible and not yet scraped |
| Stages.AllCandidates | src/media_toolkit/viewer/server.py:727-728 | at most 500 records, all accessible and without media |
| Stages.BatchCandidatesSpec | src/media_toolkit/viewer/server.py:676-680 | a batch candidate is exactly a requested record that loads and has no media |
| Stages.SelectBatch | src/media_toolkit/viewer/server.py:676-680 | the loop picks the batch candidates |
| Stages.Answer | src/media_toolkit/viewer/server.py:461-473 | 409 exactly when a task is running; "nothing to do" exactly when none is and there are no candidates; otherwise started with the number of candidates |
| Stages.ValidateUrls | src/media_toolkit/viewer/server.py:455-518 | the answer for the flag and the candidates; nothing changes unless started; when started, the store and errors of the validation task |
| Stages.ScrapePosts | src/media_toolkit/viewer/server.py:520-614 | the same for scraping |
| Stages.DownloadBatch | src/media_toolkit/viewer/server.py:669-713 | the same for a batch download, named "Batch Downloading" |
| Stages.DownloadAll | src/media_toolkit/viewer/server.py:721-767 | the same for downloading everything, named "Downloading media" |
| Stages.DownloadOne | src/media_toolkit/viewer/server.py:644-667 | 404 exactly when the record does not load; its paths when it has media; otherwise a download whose success is saved and whose failure changes nothing |
| Tasks.Last | src/media_toolkit/viewer/server.py:442-451 | `xs[-n:]`: the last `n` elements, or all of them |
| Tasks.LastLast | src/media_toolkit/viewer/server.py:442-451 | taking the last elements twice is taking them once, and keeps only elements of the list |
| Tasks.TaskState.constructor | src/media_toolkit/viewer/server.py:59-66 | no task, nothing counted, nothing recorded |
| Tasks.TaskState.Begin | src/media_toolkit/viewer/server.py:476-480 | running, named, nothing done of `n` items, no errors; the rest as it was |
| Tasks.TaskState.Switch | src/media_toolkit/viewer/server.py:804-805 | the next stage's name and count; the rest as it was |
| Tasks.TaskState.Advance | src/media_toolkit/viewer/server.py:484-485 | progress `i + 1` and the message; the rest as it was |
| Tasks.TaskState.Fail | src/media_toolkit/viewer/server.py:503-504 | the error line appended; the rest as it was |
| Tasks.TaskState.Note | src/media_toolkit/viewer/server.py:584-593 | the live-view row appended; the rest as it was |
| Tasks.TaskState.End | src/media_toolkit/viewer/server.py:508-510 | no longer running, with the closing message; the rest as it was |
| Tasks.TaskState.Status | src/media_toolkit/viewer/server.py:438-453 | the state with at most the last ten errors and recent rows; the recent rows are emptied and nothing else changes |
| Tasks.AsWrittenOverlaps | src/media_toolkit/viewer/server.py:461-512 | as written, two requests arriving before the first task starts are both let through and their tasks run side by side |
| Tasks.ClaimedStep | src/media_toolkit/viewer/server.py:461-512 | with the flag claimed by the request, every event keeps the slot claimed |
| Tasks.ClaimedExclusive | src/media_toolkit/viewer/server.py:461-512 | with the flag claimed by the request, every schedule keeps at most one task scheduled or running |
| Server.PendingPost | src/media_toolkit/viewer/server.py:394-401 | the record a scan creates for a new link: its id, URL, platform, note and context, status pending, metrics within bounds |
| Server.AddPendingNext | src/media_toolkit/viewer/server.py:388-402 | the scan's fold over one more link |
| Server.FailureStays | src/media_toolkit/viewer/server.py:388-402 | once an exception ends the scan loop, later links change nothing |
| Server.AddOne | src/media_toolkit/viewer/server.py:389-402 | one pass of the scan loop as its step specification gives it |
| Server.AddPending | src/media_toolkit/viewer/server.py:388-402 | the scan loop ends with the store, the records created, the existing count and the failure its fold gives |
| Server.GrownStep | src/media_toolkit/viewer/server.py:388-402 | one link more keeps the scan's invariant |
| Server.GrownSave | src/media_toolkit/viewer/server.py:394-402 | saving the pending record of a new link keeps the scan's invariant |
| Server.SaveKeepsOld | src/media_toolkit/viewer/server.py:402 | saving a new id keeps every record indexed before |
| Server.SaveCreated | src/media_toolkit/viewer/server.py:394-402 | saving a new pending record keeps the created records exactly the new pending ones |
| Server.ScanGrows | src/media_toolkit/viewer/server.py:388-402 | the scan loop keeps its invariant over all links: old records kept, every link's id indexed unless the loop raised, new records pending |
| Server.ScanSucceeds | src/media_toolkit/viewer/server.py:397 | links whose platforms are all known never raise |
| Server.SourceFiles | src/media_toolkit/viewer/server.py:416 | the note of each link, in order |
| Server.DuplicateItemsSpec | src/media_toolkit/viewer/server.py:411-417 | each group of two or more links gives one row with its first URL, its number of links (at least two) and one note per link |
| Server.DuplicateList | src/media_toolkit/viewer/server.py:410-417 | the loop builds the rows of the first 50 duplicate groups |
| Server.SurplusBound | src/media_toolkit/viewer/server.py:427 | groups of more than one link have more surplus links than there are groups |
| Server.ScanCounts | src/media_toolkit/viewer/server.py:380-430 | new and existing add up to the unique links, no more than all links; duplicates are the links beyond the unique ones; the record count grows by the new ones; the platform breakdown adds up to the unique links |
| Server.ScanDuplicateRows | src/media_toolkit/viewer/server.py:409-417 | at most 50 duplicate rows, each of two links or more |
| Server.ScanKnownSucceeds | src/media_toolkit/viewer/server.py:380-430 | links whose platforms are all known are scanned without an error |
| Server.ScanOfNotes | src/media_toolkit/viewer/server.py:380-430 | the links read from a directory of notes never make the scan raise |
| Server.ScanUrls | src/media_toolkit/viewer/server.py:362-436 | 409 while a task runs, 400 for a missing source, 500 for one that is not a directory; otherwise the scan of its notes |
| Server.ScanCollection | src/media_toolkit/viewer/server.py:381-430 | the scan of the collected links as its specification gives it |
| Server.PipelineScraped | src/media_toolkit/viewer/server.py:838-851 | the pipeline's scrape keeps id, status, title, shares and media type, sets the scrape time and copies the author |
| Server.AccessibleOf | src/media_toolkit/viewer/server.py:828 | exactly the accessible records |
| Server.PipelineValidate | src/media_toolkit/viewer/server.py:804-828 | the pipeline's validation of the new records, then the accessible ones among them |
| Server.PipelineStages | src/media_toolkit/viewer/server.py:803-862 | the validation and scraping steps, their errors appended, and the closing "Complete: n new, m scraped" |
| Server.FullPipeline | src/media_toolkit/viewer/server.py:769-866 | started exactly when no task runs; then the whole pipeline runs and the flag is cleared; a missing source leaves the store alone with the scanning message; with a source, the store and errors of the pipeline and its closing message |
| Server.RunPipeline | src/media_toolkit/viewer/server.py:777-862 | the pipeline task clears the flag however it ends, with the store and errors of the pipeline |
| Server.PipelineFrom | src/media_toolkit/viewer/server.py:787-859 | from the collected links: the records for the new ones, their validation and scraping |
| Server.StageOutAt | src/media_toolkit/viewer/server.py:807-826 | item `k` as the stage leaves it: its saved version or itself |
| Server.ValidateKeepsIds | src/media_toolkit/viewer/server.py:819-821 | the pipeline's validation saves every record under its own id |
| Server.AccessibleValidated | src/media_toolkit/viewer/server.py:807-828 | what the validation leaves accessible was validated in this run and is one of the records it was given |
| Server.PipelineScrapesNew | src/media_toolkit/viewer/server.py:787-832 | the pipeline scrapes only records it created itself that validated as accessible in the same run |
| Server.PipelineKeepsOld | src/media_toolkit/viewer/server.py:787-858 | a record indexed before the pipeline keeps its entry and its file |
| Server.StagesUntouched | src/media_toolkit/viewer/server.py:803-858 | validation and scraping leave alone a record not among those they work on |
| Server.ScrapeKeepsIds | src/media_toolkit/viewer/server.py:836-853 | the pipeline's scraping saves every record under its own id |
| Server.SavedBacked | src/media_toolkit/storage/db.py:53-112 | saving keeps every indexed id backed by a record file |
| Server.DeletedBacked | src/media_toolkit/storage/db.py:142-161 | deleting keeps every indexed id backed by a record file |
| Server.DeletePosts | src/media_toolkit/viewer/server.py:321-340 | the bulk delete loop ends with the store, the count and the error lines its fold gives |
| Server.BulkCounts | src/media_toolkit/viewer/server.py:324-339 | the count and the errors together never exceed the ids, and the index stays well formed |
| Server.BulkRemoves | src/media_toolkit/viewer/server.py:327-334 | an asked-for id whose file removal never raises is no longer indexed; an id not asked for keeps its entry and its file |
| Server.DeletePostRoute | src/media_toolkit/viewer/server.py:198-205 | the record's deletion as specified, then its media files and thumbnail removed when it was found; otherwise nothing changes |
| Server.UpdateNote | src/media_toolkit/viewer/server.py:214-223 | the store and the flag of the note update |
| Server.NoteReadBack | src/media_toolkit/viewer/server.py:214-223 | found exactly when the record loads; it then reads back with the note (an empty one as none) and nothing else of it changes; otherwise nothing changes |
| Server.InaccessibleFilter | src/media_toolkit/viewer/server.py:345-348 | a valid filter for private and deleted records, limit 500 |
| Server.InaccessibleListed | src/media_toolkit/viewer/server.py:342-360 | what the handler would list: at most 500 records, each private or deleted |
| Server.Dispatch | src/media_toolkit/viewer/server.py:139-769 | the handler chosen belongs to a registered route whose verb and pattern fit the request |
| Server.Shadowed | src/media_toolkit/viewer/server.py:198-312 | a route registered after one with the same verb and pattern is never reached |
| Server.DeleteFilesUnreachable | src/media_toolkit/viewer/server.py:311-319 | the second `DELETE /api/posts/{post_id}` handler is never reached |
| Server.InaccessibleShadowed | src/media_toolkit/viewer/server.py:190-196 | as registered, `GET /api/posts/inaccessible` reaches `get_post` with the id "inaccessible" |
| Server.FixedRoutesReach | src/media_toolkit/viewer/server.py:342-360 | with the fixed route order the inaccessible list is reached, and every other id still reaches `get_post` |
| MainPipeline.DistinctIdsAppend | src/media_toolkit/main.py:72 | appending a link whose id no earlier link has keeps the ids distinct |
| MainPipeline.NewUrls | src/media_toolkit/main.py:77 | exactly the unique links whose ids are not stored, no more of them than links |
| MainPipeline.NewUrlsDistinct | src/media_toolkit/main.py:72-77 | new links drawn from links with distinct ids have distinct ids |
| MainPipeline.ValidationsKeys | src/media_toolkit/main.py:100-104 | every new link's id is a key of `validation_results`, and every key is a new link's id |
| MainPipeline.ValidationsAt | src/media_toolkit/main.py:100-104 | with distinct ids, each new link is validated once and its entry is the result of its own call |
| MainPipeline.ValidateAll | src/media_toolkit/main.py:100-107 | the validation loop builds `validation_results` as specified |
| MainPipeline.CheckList | src/media_toolkit/main.py:111 | one result per new link |
| MainPipeline.StatusCountsTotal | src/media_toolkit/main.py:110-113 | each status value once, counted by how many validations gave it, the counts adding up to the new links |
| MainPipeline.AccessibleUrls | src/media_toolkit/main.py:121-124 | exactly the new links whose validation is accessible, in order |
| MainPipeline.AccessibleDistinct | src/media_toolkit/main.py:121-124 | the accessible links have distinct ids |
| MainPipeline.ScrapedPost | src/media_toolkit/main.py:145-167 | the record for a scraped link: its id, URL, platform, note and context, accessible if the scrape succeeded and failed otherwise, the scrape time and the validation's time, no media, tags, category or note; metrics within bounds exactly when the scrape's are |
| MainPipeline.ScrapeAttempt | src/media_toolkit/main.py:138-181 | the `try` block saves exactly when the scrape returned, the platform is known and the metrics are within bounds; a thumbnail is asked for only with media downloads on and a thumbnail URL found, and kept exactly when a path came back |
| MainPipeline.ScrapeNext | src/media_toolkit/main.py:137-184 | the scrape fold over one more link |
| MainPipeline.ScrapeAll | src/media_toolkit/main.py:137-184 | the scrape loop ends with the store and the thumbnail requests its fold gives |
| MainPipeline.SavedStatus | src/media_toolkit/main.py:190-200 | private for private and login-required, deleted for deleted, failed for everything else |
| MainPipeline.RestPost | src/media_toolkit/main.py:196-205 | the record for a link not scraped: its id, URL, platform, note and context, the mapped status, the validation's time and error message, nothing scraped |
| MainPipeline.RestNext | src/media_toolkit/main.py:187-206 | the save fold over one more link |
| MainPipeline.RestFailureStays | src/media_toolkit/main.py:187-206 | once `Platform(...)` has raised, later links change nothing |
| MainPipeline.SaveRest | src/media_toolkit/main.py:187-206 | the save loop ends with the store and the failure its fold gives |
| MainPipeline.MainOf | src/media_toolkit/main.py:77-206 | with no new link the run stops before validating and leaves the store alone; otherwise the new links, the status counts adding up to them, exactly the accessible ones scraped, and no thumbnail asked for with media downloads off |
| MainPipeline.ScrapeFetchesOnlyMedia | src/media_toolkit/main.py:170-176 | at most one thumbnail request per accessible link, none with media downloads off |
| MainPipeline.RunOn | src/media_toolkit/main.py:77-206 | the run applied to the database as specified |
| MainPipeline.RunPipeline | src/media_toolkit/main.py:34-209 | a path that is not a directory raises before anything is stored; otherwise the run from the collection's unique links |
| MainPipeline.SavedElsewhere | src/media_toolkit/storage/db.py:53-112 | saving another record leaves an id as it was |
| MainPipeline.ScrapeUntouched | src/media_toolkit/main.py:137-184 | the scrape loop leaves every id it does not scrape as it was |
| MainPipeline.ScrapeOutcome | src/media_toolkit/main.py:137-184 | with distinct ids, the record the `k`-th block builds is what the store holds for its id; when the block raised its id is as before |
| MainPipeline.RestUntouched | src/media_toolkit/main.py:187-206 | the save loop leaves the accessible ids, and ids of no new link, as they were |
| MainPipeline.RestOutcome | src/media_toolkit/main.py:187-206 | a save loop that did not raise has saved each new link not among the accessible ids, with its platform known |
| MainPipeline.MainKeepsOld | src/media_toolkit/main.py:77-206 | records stored before the run are left as they were |
| MainPipeline.NewIdsNotStored | src/media_toolkit/main.py:77 | a stored id is the id of no new link |
| MainPipeline.AccessibleIdsNew | src/media_toolkit/main.py:121-124 | accessible ids are ids of new links |
| MainPipeline.MainScraped | src/media_toolkit/main.py:137-184 | for the `k`-th accessible link, the record its block saved is stored after the run; when the block raised, its id is not stored |
| MainPipeline.MainRestSaved | src/media_toolkit/main.py:186-206 | for the `k`-th new link validation did not find accessible, in a run whose save loop did not raise, the store holds the record with its mapped status, validation time and error message |

## Left out

- **Real I/O.** HTTP requests (aiohttp), yt-dlp subprocesses, PIL resizing, front-matter, JSON and YAML serialisation, and file reads, writes and globs are modelled only through the outcomes they return: an in-memory map per directory and a map of record files.
- **SHA-256.** Only the parameter `digest` stands for it. The model assumes nothing about it beyond being a function, so id collisions are not ruled out.
- **Concurrency and timing.** `asyncio.sleep` delays, the semaphore of `batch_validate` and the timeouts are not modelled. Stage items run one after another, and the batch results are modelled in input order.
- **Background tasks.** The `BackgroundTasks` scheduling of the viewer's stage handlers is modelled separately, as the event schedule in `Tasks`. The handler methods in `Stages` and `Server` run their task to completion within the request.
- **Clocks.** `datetime.now`, `strptime` and `fromtimestamp` are parameters. Times are opaque ordered values (`Instant`).
- **Floating point.** `_parse_count` is modelled as exact decimal arithmetic truncated toward zero. Exponents, `inf` and `nan` are not modelled. `response_time_ms`, `duration_seconds`, `human_readable_size` and `total_media_size_mb` are left out.
- **The Python regex engine.** Each pattern the scrapers use is a hand-written matcher over a small fragment: literals, character classes, greedy and lazy repetition, and one capture. The unused `URL_PATTERNS` table is left out.
- **`export_static_data`.** This writes `data.js` on every save and reindex (src/media_toolkit/storage/db.py:424-441). It is output formatting only.
- **The `stats.json` write and `last_updated` of `get_stats`.** These are output and clock only.
- **`save_post` failures.** `save_post` is modelled as never raising. A write failure inside a stage item is therefore not modelled.
- **Thin viewer routes.** The routes that only call one `Database` method: list, get, tags, category, stats, analytics, filters, thumbnail and reindex. They are covered by the `Db.Database` methods they call. `open_media_folder`, the config routes, the HTML and static routes and CORS are user-interface plumbing.
- **The files removal of `_delete_post_files`.** It is modelled as the exception it may raise (`unlink(i)` in `Server.DeletePosts`). Its route handler is unreachable (`Server.DeleteFilesUnreachable`).
- **Command-line output.** `show_stats`, the rich console, hydra configuration, `run.py`, the streamlit app, the migration script, and the printing of the duplicate report in `main.py` are left out.
- **The two extractors.** `extractor/video.py` and `extractor/web_image.py` wrap yt-dlp, BeautifulSoup and cloudscraper. They are the `extract` parameter of `Extractor`, and each accepts every URL.
- MediaDownloader.MediaDownloader.Download: takes the missing `_sanitize_filename` as a parameter `sanitize`. The code as written always raises there (see Findings).
- MainPipeline.CheckList: takes `validation_results.values()` in validation order. This is the order Python gives a dict built by inserting distinct keys.
- MainPipeline.MainOf: the scraper, thumbnail and clock oracles are indexed by position in the accessible list. The validator and its clock are indexed by position in the new links.
- Counts.ParseCount: covers the decimal inputs `float()` accepts without an exponent, `inf` or `nan`. Underscores between digits (`"1_000"`, `"1_5K"`), non-ASCII decimal digits (`"١٢٣"`) and the non-ASCII case mappings of `.upper()` are not modelled: such text gives no count.
- GeneralDownloader.Allowed: Python's `isalpha` and `isdigit` are modelled for ASCII, Latin-1 and Latin Extended-A/B, Greek, Cyrillic, kana, CJK ideographs and Hangul syllables, and the common decimal and superscript digits. Letters and digits of other scripts are dropped from the file name.
- Text.ToLower: lowers ASCII letters only; `.lower()` also lowers non-ASCII letters.
- Text.IsWordChar: ASCII letters, digits and `_` only; the Unicode `\w` of Python's regex engine also matches non-ASCII letters and digits.
- Text.IsDigit: ASCII digits only, for the regex class `\d`; Python's `\d` also matches other decimal digits.
- Server.ScanRoute: `path` is the source directory as `str(Path(...))` prints it; the normalisation `pathlib` applies (trailing and repeated separators, `.` segments) is not modelled.

## Findings

| source | as written | input that shows it | evidently intended | confidence | as-written member | corrected member |
|---|---|---|---|---|---|---|
| src/media_toolkit/downloader/media_downloader.py:82 | `download` calls `self._sanitize_filename`, which the class does not define | any call to `download` | the author name sanitised into a directory name, then the download | not executed | MediaDownloader.DownloadAsWritten | MediaDownloader.MediaDownloader.Download (with MediaDownloader.DownloadFound) |
| src/media_toolkit/storage/db.py:247-254 | the `posted_before` check is nested inside the `posted_after` branch | `posted_after` given and `posted_before` absent raises a `TypeError`; `posted_before` alone is never applied | each bound applied on its own | not executed | DbQuery.AsWrittenRaises (with DbQuery.AsWrittenIgnoresBefore) | DbQuery.ListingMatches |
| src/media_toolkit/viewer/server.py:461-512 | the handler only reads `is_running`; the background task sets it when it starts | two validate requests that both arrive before the first task starts | one stage task at a time | not executed | Tasks.AsWrittenOverlaps | Tasks.ClaimedExclusive |
| src/media_toolkit/viewer/server.py:190-196 | `GET /api/posts/{post_id}` is registered before `GET /api/posts/inaccessible` | `GET /api/posts/inaccessible` reaches `get_post` with the id "inaccessible" and gives 404 | the inaccessible list | not executed | Server.InaccessibleShadowed | Server.FixedRoutesReach |

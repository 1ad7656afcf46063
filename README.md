# YouTube-to-blog backend: a verified model

This project models the core of a service that turns a YouTube video into a blog
post. Two parts are modelled:

- `YouTubeService` (`backend/youtube_service.py`). It extracts a video ID from a
  URL. It gathers the video's metadata through a chain of providers: the YouTube
  Data API, PyTube, yt-dlp, and a mock record. It normalises each provider's
  answer into one record. It fetches and cleans a transcript. It formats
  durations and view counts.
- `BlogGenerator` (`utils/blog_generator.py`). It decides whether the LLM is
  usable, picks the content source for a prompt, truncates it to 4000
  characters, and dispatches on the template name.

Each network or library call (the Data API request, PyTube, yt-dlp, the
transcript API, the LLM, `datetime.now()`, the environment) is a parameter. The
parameter holds what that call returned or raised.

Modules, one per file:

- Outcomes: `Option` and `Result` (`Failure` stands for a raised exception).
- Text: Python's whitespace set, `str.strip`, `re.sub(r'\s+', ' ', …)`,
  decimal numerals, zero padding, split and join.
- VideoIds: the two URL patterns run with `re.search` semantics.
- Durations: `_seconds_to_duration` and `_parse_duration`.
- ViewCounts: `_format_view_count`.
- VideoMetadata: the metadata record, dates, and the four normalisers.
- Transcripts: `_clean_transcript` and `get_transcript`.
- YouTube: the `YouTubeService` class, its constructor and the provider chain.
- Blog: `BlogGenerator`.

## Model

| member | source | states |
|---|---|---|
| VideoIds.ExtractVideoId | backend/youtube_service.py:31-45 | None exactly when neither pattern matches anywhere. Otherwise the ID is group 1 of the leftmost match of the first pattern that matches. It is a non-empty run of characters other than `&`, newline, `?` and `#`, and it occurs in the URL. |
| VideoIds.SearchDirect | backend/youtube_service.py:34 | Finds the leftmost match of the watch/short/embed pattern. The alternatives are tried in order, and the ID run is greedy. None iff there is no match. |
| VideoIds.SearchQuery | backend/youtube_service.py:35 | Finds the leftmost match of `youtube.com/watch?.*v=`. Its `v=` is the last one on the line that is followed by an ID character, as the greedy `.*` picks. None iff there is no match. |
| VideoIds.LastV | backend/youtube_service.py:35 | The greedy `.*v=`: the last `v=` before the first newline that is followed by an ID character. There is none after it. |
| VideoIds.SearchResultGroup | backend/youtube_service.py:41 | Group 1 of any match is non-empty, made of ID characters, and found at its reported position. |
| VideoIds.ValidateYoutubeUrl | backend/youtube_service.py:47-49 | True iff one of the two patterns matches. |
| YouTube.YouTubeService.constructor | backend/youtube_service.py:14-29 | A missing or empty key argument falls back to the environment value. `has_ytdlp` is whether yt-dlp can be imported. |
| YouTube.KeyConfiguredIsStrip | backend/youtube_service.py:56 | The key counts as configured iff it is present and non-empty after `strip()`. |
| YouTube.YouTubeService.GetVideoMetadata | backend/youtube_service.py:51-87 | The provider chain as a function of the key, the yt-dlp flag and each provider's outcome. It returns the record together with the providers tried. Its properties are stated by `ChainOrder`, `ChainMembers`, `ChainFailures`, `ChainLast` and `ChainKeeps` below. |
| YouTube.ChainOrder | backend/youtube_service.py:51-87 | `get_video_metadata` tries at least one provider, and it tries them in chain order: Data API, PyTube, yt-dlp, mock. |
| YouTube.ChainMembers | backend/youtube_service.py:51-87 | The Data API is tried iff a key is configured. PyTube is tried iff the Data API was not tried or failed. yt-dlp is tried iff PyTube was tried and failed and yt-dlp is installed. The mock record is used iff PyTube was tried and failed and yt-dlp was not installed or failed. |
| YouTube.ChainFailures | backend/youtube_service.py:51-87 | Every provider tried before the last one is a real provider that failed. |
| YouTube.ChainLast | backend/youtube_service.py:51-87 | The returned record is the mock record when the mock was reached, and otherwise the record the last provider tried returned. |
| YouTube.ChainKeeps | backend/youtube_service.py:51-87 | If every provider's record carries the requested video ID and a description of at most 503 characters, so does the returned record. |
| YouTube.ProviderResult | backend/youtube_service.py:89-245 | Each provider's record carries the requested video ID. Its description is at most 503 characters. The mock provider always succeeds. |
| VideoMetadata.ParseInt | backend/youtube_service.py:117 | `int()` on a string: surrounding whitespace is ignored, one optional sign is allowed, and anything other than ASCII digits is a ValueError (None). `ParseIntOfDec` states that it reads back every numeral. |
| VideoMetadata.FromApi | backend/youtube_service.py:89-132 | Succeeds iff the status is 200, there is an item, and its duration, view count and thumbnail can be read. On success: title and channel are copied; the description is truncated; the date is the first 10 characters of `publishedAt`; `maxresdefault` is preferred over `high`; duration and views are the parsed and formatted values. |
| VideoMetadata.Thumbnail | backend/youtube_service.py:126 | `maxresdefault` is chosen when present. Without it, `high` is chosen when present. With neither, the result is None (a KeyError). |
| VideoMetadata.Truncated | backend/youtube_service.py:125 | Descriptions of at most 500 characters are unchanged. Longer ones become their first 500 characters followed by `...`, 503 characters in all. |
| VideoMetadata.TruncatedIdempotent | backend/youtube_service.py:125 | Truncating twice is truncating once. |
| VideoMetadata.FromPyTube | backend/youtube_service.py:134-175 | Video ID, title, channel and thumbnail URL are copied. The views are the formatted view count. The duration is `_seconds_to_duration` of the video length, and it reads back to that length. The date is the publish date, or today when there is none. A missing or empty description becomes `No description available`; any other description is truncated. |
| VideoMetadata.FromYtdlp | backend/youtube_service.py:177-231 | Each missing key takes its documented default. The description is truncated. The views are the formatted view count, 0 when missing. The duration is `_seconds_to_duration` of the given seconds, 0 when missing, and it reads back to them. The date is `UploadDate` of the upload date, with today's compact form as the default. |
| VideoMetadata.UploadDate | backend/youtube_service.py:210-214 | The `try`/`except` around strptime: a date strptime accepts is rendered `YYYY-MM-DD`, anything else gives today. `YtdlpUploadDate` and `YtdlpBadDate` state both cases. |
| VideoMetadata.DateText | backend/youtube_service.py:212 | `strftime('%Y-%m-%d')`: the year padded to four digits, then the month and the day padded to two, joined by dashes. `DateTextOfCompact` relates it to the compact form. |
| VideoMetadata.Compact | backend/youtube_service.py:199 | `strftime('%Y%m%d')`, the default `upload_date`: the same three padded fields without separators. `CompactRoundTrip` states that strptime reads it back. |
| VideoMetadata.DateTextOfCompact | backend/youtube_service.py:212 | For a valid date the compact form has 8 characters, and the dashed form is that text with a dash after the year and after the month. |
| VideoMetadata.Strptime | backend/youtube_service.py:212 | `datetime.strptime(s, '%Y%m%d')`: a result is always a valid calendar date. |
| VideoMetadata.CompactRoundTrip | backend/youtube_service.py:210-212 | Parsing the `YYYYMMDD` form of a valid date gives that date back. |
| VideoMetadata.YtdlpUploadDate | backend/youtube_service.py:210-214 | A well-formed `upload_date` becomes the date's `YYYY-MM-DD` form. |
| VideoMetadata.YtdlpBadDate | backend/youtube_service.py:211-214 | An `upload_date` that strptime rejects gives today's date. |
| VideoMetadata.YtdlpDefaultDate | backend/youtube_service.py:199-214 | A missing `upload_date` gives today's date. |
| VideoMetadata.StrptimeShortForm | backend/youtube_service.py:212 | strptime takes a one-digit day (`2024115` is 2024-11-05) and rejects month 13. |
| VideoMetadata.ParseIntOfDec | backend/youtube_service.py:117 | `int()` reads back any decimal numeral. |
| VideoMetadata.DefaultThumbnail | backend/youtube_service.py:200 | The `maxresdefault.jpg` URL of the video under `img.youtube.com`. It is yt-dlp's default thumbnail and the mock record's thumbnail, as `FromYtdlp` and `MockRecord` state. |
| VideoMetadata.Mock | backend/youtube_service.py:233-245 | The mock record built from the video ID and today's date. `MockRecord` states its fields. |
| VideoMetadata.MockRecord | backend/youtube_service.py:233-245 | The mock record carries the requested ID, the default thumbnail URL for it, today's date, and a description within the 503-character bound. Its title, description, duration (`10:30`), views (`N/A`) and channel (`Unknown Channel`) are the fixed mock values, the same for every video and every day. |
| Durations.Clock | backend/youtube_service.py:352-355 | The f-strings shared by both duration functions: `H:MM:SS` when the hours are positive, `M:SS` otherwise. `ClockFields` states its fields and `ReadClock` its read-back. |
| Durations.SecondsToDuration | backend/youtube_service.py:357-366 | Hours, minutes and seconds by integer division, rendered `H:MM:SS` from an hour up and `M:SS` below. `SecondsToDurationRoundTrip` and `SecondsToDurationFields` state its properties. |
| Durations.SecondsToDurationRoundTrip | backend/youtube_service.py:357-366 | The `H:MM:SS` / `M:SS` rendering of any number of seconds reads back to that number. |
| Durations.ReadClock | backend/youtube_service.py:357-366 | A rendering with minutes and seconds below 60 reads back to its total in seconds. |
| Durations.SecondsToDurationFields | backend/youtube_service.py:357-366 | The rendering has two fields below an hour and three from an hour up. In `H:MM:SS` the minutes and the seconds are two digits with a value below 60. In `M:SS` the minutes are the unpadded numeral of total // 60, and the seconds are two digits below 60. |
| Durations.AfterPrefix | backend/youtube_service.py:331 | `duration_str[2:]`: the text after the first two characters, empty for shorter input. |
| Durations.UnitAmount | backend/youtube_service.py:338-349 | The `if 'H' in duration_str` guard: 0 when the letter is absent, otherwise the tagged search, which is None where `.group` would be called on None. |
| Durations.FirstTagged | backend/youtube_service.py:339 | `re.search(r'(\d+)H', …).group(1)` read by `int()`: the value of the leftmost maximal run of digits followed by the letter, None where there is no such run. `TaggedFront` states that a component at the front is found. |
| Durations.RemoveTagged | backend/youtube_service.py:340 | `re.sub(r'\d+H', '', …)`: every run of digits followed by the letter is deleted together with the letter. `TaggedFront` states that a component at the front is removed, and `RemoveTaggedAbsent` that text without the letter is unchanged. |
| Durations.ParsedDuration | backend/youtube_service.py:326-355 | The value-level `_parse_duration`: the `H`, `M` and `S` amounts in turn, rendered like `_seconds_to_duration` without carrying; None where the source raises. `ParseIsoTime`, `ParseAgreesWithSeconds` and `ParseDurationRaises` state its properties. |
| Durations.ParseDuration | backend/youtube_service.py:326-355 | The step-by-step parser agrees with the value-level `ParsedDuration`. It is None where the source raises. |
| Durations.ParseIsoTime | backend/youtube_service.py:326-355 | For every `PT[nH][nM][nS]`, the result is the clock rendering of the given amounts, with absent amounts as 0. |
| Durations.ParseAgreesWithSeconds | backend/youtube_service.py:326-366 | For minutes and seconds below 60, parsing `PTnHnMnS` gives the same text as rendering the total seconds. |
| Durations.ParseDurationRaises | backend/youtube_service.py:338-339 | `PTH` (a unit letter with no digits) makes the parser raise. |
| Durations.NoCarryExample | backend/youtube_service.py:348-355 | `PT90S` renders as `0:90`, which is not a well-formed duration. |
| Durations.SecondsExamples | backend/youtube_service.py:357-366 | 30, 125 and 3725 seconds render as `0:30`, `2:05` and `1:02:05`. |
| Durations.HoursExample | backend/youtube_service.py:326-355 | `PT1H2M5S` renders like 3725 seconds. |
| Durations.MinutesSecondsExample | backend/youtube_service.py:327 | `PT4M13S` renders as `4:13`. |
| ViewCounts.FormatViewCount | backend/youtube_service.py:368-375 | `_format_view_count`: `M` from 1,000,000, `K` from 1,000, each with one decimal, and the comma-grouped number below. `FormatViewCountSuffix`, `ScaledRoundTrip`, `PlainRoundTrip` and `NegativeRoundTrip` state its properties. |
| ViewCounts.OneDecimal | backend/youtube_service.py:370-373 | `:.1f` once the tenths are known: the whole part, a point, and one digit. `ReadOneDecimalOf` states that it reads back to the tenths. |
| ViewCounts.Grouped | backend/youtube_service.py:375 | `f"{k:,}"` for k >= 0: non-empty, ending in a digit, and the plain numeral below 1,000. `GroupedDigits` states that dropping the commas leaves ASCII digits that read back as k. |
| ViewCounts.SignedGrouped | backend/youtube_service.py:375 | `f"{n:,}"` for any n: a minus sign before the grouped magnitude when n is negative. `PlainRoundTrip` and `NegativeRoundTrip` state that it reads back. |
| ViewCounts.Tenths | backend/youtube_service.py:370-373 | The number of tenths is within half a tenth of the exact quotient. |
| ViewCounts.FormatViewCountSuffix | backend/youtube_service.py:368-375 | The text ends in `M` iff the count is at least 1,000,000. It ends in `K` iff the count is in [1,000, 1,000,000). Otherwise it ends in a digit. |
| ViewCounts.ScaledRoundTrip | backend/youtube_service.py:370-373 | A count of 1,000 or more reads back as `t/10` units with a `K` or `M` suffix, where `t` is within half a tenth of the count. |
| ViewCounts.PlainRoundTrip | backend/youtube_service.py:374-375 | A count below 1,000, negative ones included, reads back exactly once the group separators are dropped. |
| ViewCounts.GroupedDigits | backend/youtube_service.py:375 | Dropping the commas of `f"{k:,}"` leaves ASCII digits that read back as k. |
| ViewCounts.NegativeRoundTrip | backend/youtube_service.py:374-375 | A negative count falls through to the grouped form, which reads back exactly. |
| ViewCounts.PlainExamples | backend/youtube_service.py:374-375 | 999 renders as `999` and -1,234 as `-1,234`. |
| ViewCounts.ThousandsExample | backend/youtube_service.py:372-373 | 1,500 renders as `1.5K`. |
| ViewCounts.MillionsExample | backend/youtube_service.py:370-371 | 2,500,000 renders as `2.5M`. |
| ViewCounts.TieExample | backend/youtube_service.py:370-371 | The exact tie 1,250,000 rounds half to even, to `1.2M`. |
| ViewCounts.RoundUpExample | backend/youtube_service.py:372-373 | 999,950 rounds up to `1000.0K`: the unit is chosen before rounding. |
| Text.Collapse | backend/youtube_service.py:303 | `re.sub(r'\s+', ' ', …)`: each maximal run of whitespace becomes one space. `CollapseTidy` states that the result has only single spaces, and `TidyCollapseId` that text which already has only single spaces is unchanged. |
| Text.TidyCollapseId | backend/youtube_service.py:303 | Collapsing text whose only whitespace is single spaces gives the same text back. |
| Text.Strip | backend/youtube_service.py:303 | `str.strip()`: the result is the input with its leading and trailing Python whitespace removed. It is empty iff the input is all whitespace, and otherwise starts and ends with a non-space. |
| Text.CollapseTidy | backend/youtube_service.py:303 | After `re.sub(r'\s+', ' ', …)` no whitespace other than single spaces is left. |
| Text.StripUnchanged | backend/youtube_service.py:316 | Text that starts and ends with a non-space is left unchanged by `strip()`. |
| Transcripts.Cleaned | backend/youtube_service.py:300-318 | The value-level `_clean_transcript`: strip and collapse, the three removal passes, then collapse and strip. `CleanedShape`, `CleanedChars` and `CleanedFixedPoint` state its properties. |
| Transcripts.RemoveFillers | backend/youtube_service.py:306-313 | The filler pass: at each position a filler match is dropped, otherwise the character is kept. `NoFillersUnchanged`, `FillerExample` and `FillersChars` state its properties. |
| Transcripts.RemoveEnclosed | backend/youtube_service.py:306-313 | The non-greedy `\[.*?\]` or `\(.*?\)` pass: an opener with a closer later on the same line is dropped with everything up to that closer. `PatternsClear`, `EnclosedChars` and `EnclosedKeeps` state its properties. |
| Transcripts.CleanTranscript | backend/youtube_service.py:300-318 | Agrees with the value-level `Cleaned`. The result has single spaces and none at the ends. It has no `[…]` or `(…)` pair. Every non-space character it keeps comes from the input. |
| Transcripts.CleanedShape | backend/youtube_service.py:303-316 | The cleaned text has single spaces and none at the ends. It has no `[…]` or `(…)` pair left. |
| Transcripts.CleanedChars | backend/youtube_service.py:300-318 | Cleaning only removes: every non-space character of the result occurs in the input. |
| Transcripts.CleanedFixedPoint | backend/youtube_service.py:300-318 | Cleaning keeps text that is already clean: single spaces, none at either end, no `[…]` or `(…)` pair, and no filler phrase standing alone. Such text comes back unchanged. |
| Transcripts.PatternsUnchanged | backend/youtube_service.py:306-313 | The three removal passes return text that none of the patterns matches unchanged. |
| Transcripts.EnclosedUnchanged | backend/youtube_service.py:306-313 | The `[…]` or `(…)` pass returns text with no opener followed later by its closer unchanged. |
| Transcripts.PatternsClear | backend/youtube_service.py:306-313 | On a line without newlines, the removal passes leave no bracketed or parenthesised span. |
| Transcripts.NoFillersUnchanged | backend/youtube_service.py:306-313 | Text with no filler word at a word boundary is left unchanged by the filler pass. |
| Transcripts.FillerExample | backend/youtube_service.py:306-313 | The filler match ignores case: `Um` is removed. |
| Transcripts.FillerAt | backend/youtube_service.py:307 | The filler match at a position is one of the seven phrases that stands alone there: it occurs, compared case-insensitively, with a word boundary at both ends. There is no match exactly when none of the phrases stands alone there. |
| Transcripts.FillersChars | backend/youtube_service.py:306-313 | The filler pass only removes: every character it keeps comes from the input. |
| Transcripts.EnclosedChars | backend/youtube_service.py:306-313 | A removal pass for `[…]` or `(…)` only removes: every character it keeps comes from the input. |
| Transcripts.EnclosedKeeps | backend/youtube_service.py:306-313 | A later removal pass does not bring back a pair an earlier pass cleared. |
| Transcripts.Transcript | backend/youtube_service.py:247-298 | The value-level `get_transcript`: the track of the first of `en`, `en-US`, `en-GB` that is listed, or the first track when none is listed or the chosen one fetches no segments. Its segments are space-joined and cleaned. Any failure, or no segments, gives None. `EnglishFirst`, `UsEnglishNext`, `FirstTrackFallback` and `GetTranscript` state its properties. |
| Transcripts.Preferred | backend/youtube_service.py:259-266 | The `for lang in languages` loop with `find_transcript([lang])`: the first track listed under the first language that the listing has. `PreferredNone`, `EnglishFirst`, `UsEnglishNext` and `GbEnglishThird` state its properties. |
| Transcripts.Segments | backend/youtube_service.py:268-276 | The preferred track's `fetch()` result when it raises or gives segments. Otherwise it is the first track's result, or no segments for an empty listing. `FirstTrackFallback` and `TranscriptFailures` state its properties. |
| Transcripts.Find | backend/youtube_service.py:261 | `find_transcript([lang])` finds the first track with that language, and None only when no track has it. |
| Transcripts.GetTranscript | backend/youtube_service.py:247-298 | The loop over `en`, `en-US`, `en-GB` with `break` agrees with the value-level `Transcript`. Every failure gives the sample transcript, None. |
| Transcripts.EnglishFirst | backend/youtube_service.py:253-285 | If an `en` track fetches non-empty segments, the result is their space-joined, cleaned text. |
| Transcripts.FirstTrackFallback | backend/youtube_service.py:268-276 | If no preferred language is listed, the first available track is used. |
| Transcripts.UsEnglishNext | backend/youtube_service.py:253-285 | Without an `en` track, a fetchable `en-US` track with segments gives their space-joined, cleaned text, wherever `en-GB` tracks sit in the listing: language order beats listing order. |
| Transcripts.GbEnglishThird | backend/youtube_service.py:253-285 | Without `en` and `en-US` tracks, a fetchable `en-GB` track with segments gives their space-joined, cleaned text. |
| Transcripts.TranscriptFailures | backend/youtube_service.py:251-298 | A listing that raises, or a `fetch()` of the preferred track that raises, gives the sample transcript (None). |
| Transcripts.PreferredNone | backend/youtube_service.py:259-266 | No preferred track exists when none of the listed languages is available. |
| Blog.NewBlogGenerator | utils/blog_generator.py:10-25 | The LLM is enabled iff constructing the service succeeded. A ValueError disables it. Any other exception escapes the constructor. |
| Blog.TemplateNamed | utils/blog_generator.py:20-33 | Exactly `article`, `tutorial`, `review` and `summary` are templates, each naming its own builder. |
| Blog.ContentSource | utils/blog_generator.py:41-47 | The transcript is the source iff it is present and longer than 100 characters after stripping. It is then used unstripped. Otherwise the source is the description (empty when missing). |
| Blog.BuildPrompt | utils/blog_generator.py:49-165 | The prompt embeds a prefix of the content source of exactly min(4000, length) characters, and names the source's kind. |
| Blog.GenerateBlog | utils/blog_generator.py:27-39 | With the LLM off, the fixed notice is returned. Otherwise an unknown template raises, and a known one returns the LLM's text for that template's prompt. |
| Blog.DisabledIgnoresTemplate | utils/blog_generator.py:29-30 | With the LLM off, neither the template nor the LLM affects the result. |
| Blog.UnknownTemplateBeforeLlm | utils/blog_generator.py:32-33 | An unknown template fails before the LLM is consulted. |
| Blog.ContentSourceExample | utils/blog_generator.py:43-47 | With no description, a short or missing transcript gives an empty description as the source. |
| Blog.PromptIgnoresThinTranscript | utils/blog_generator.py:44-47 | A transcript that is not substantial builds the same prompt as no transcript. |

## Left out

- ViewCounts.Tenths: it rounds the exact quotient half to even. Python formats the nearest binary double. They differ when a tie is not exactly representable (1,150 is `1.1K` in Python and `1.2K` here), and for counts above 2^53.
- Transcripts.FillerAt: `\w`, `\b` and `re.IGNORECASE` are ASCII only. Python's Unicode word characters and case folding (the Kelvin sign, the long s) are not modelled.
- Transcripts.GetTranscript: a `fetch()` that raises `NoTranscriptFound` is treated like any other failure. Python would go on to the next language instead.
- VideoMetadata.ParseInt: `int()` with underscores or non-ASCII digits is not modelled.
- VideoMetadata.Strptime: non-ASCII digits are not accepted, where Python's `%Y`, `%m` and `%d` accept Unicode decimal digits.
- VideoMetadata.DateText: `strftime('%Y-%m-%d')` is rendered with the year zero-padded to four digits. Some platforms print years below 1000 without padding.
- VideoMetadata.FromYtdlp: an info key present with the value None is treated as missing. Python keeps the None and may raise. Durations are whole seconds, not floats.
- VideoMetadata.FromPyTube: the length is a natural number, so a negative length is not modelled.
- VideoMetadata.FromApi: a missing `snippet`, `statistics` or `contentDetails` key is a KeyError in Python and is not modelled. Neither is a missing `title`, `description`, `publishedAt`, `channelTitle` or `duration` key, nor a thumbnail entry without a `url` key. The record takes these values as given.
- Durations.FirstTagged: `\d+` and `int()` are read with ASCII digits only. Python also accepts Unicode decimal digits, so `PT٣M` gives `3:00` there and None here.
- YouTube.YouTubeService.GetVideoMetadata: all three provider outcomes are given up front, although Python calls each only when reached.
- The idempotence of `_clean_transcript` is not claimed. Removing `[Music]` from `u[Music]m` leaves `um`, which a second pass removes.
- Console diagnostics (`print`), the request URL, its parameters and its timeout are not modelled.
- The wording of the system and user prompts is not modelled. Only what each prompt is built from is.
- Exceptions raised by the LLM call itself are not modelled. The LLM is a total function.
- `backend/llm_service.py`, `main.py`, the configuration and the startup scripts are not part of this model.

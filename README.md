# cinegram-Bot: identifying a video and deciding whether to publish it

This project models the core of cinegram-Bot, a Telegram bot that takes a video sent to it and
publishes it to a channel. The model follows the bot from the file name to a movie record in the
TMDB catalog, through a poster, to two posts on the channel.

The model has one module per core file, plus two shared modules:

- **Helpers** (`cinegram/utils/helpers.py`): the Internet Archive URL test, and extraction of the
  identifier after `archive.org/details/`.
- **FilenameParser** (`cinegram/services/filename_parser.py`): how a file name is cleaned.
  - `@name` mentions, `http(s)://` and `www.` URLs are removed, and underscores become spaces.
  - The cleaned name goes to the `guessit` guesser.
  - The guess is turned into a title and an optional year.
- **AiService** (`cinegram/services/ai_service.py`): the post-processing of an LLM answer.
  - Code fences are removed.
  - The answer is decoded as JSON.
  - Placeholder titles are refused.
  - The year is normalised.
- **TmdbService** (`cinegram/services/tmdb_service.py`): the staged catalog search.
  - The first request is in Spanish (es-MX) with the year.
  - Then come relaxed Spanish queries, one per noise suffix found in the title.
  - Last is an English (en-US) request on the original title, whose overview is translated.
  - This module also holds the poster URL and the genre text.
- **VideoHandler** (`cinegram/handlers/video_handler.py`): the `video_entry` handler.
  - The parse result, the two searches (with and without the year) and the completeness gate
    (poster and year).
  - Poster rendering.
  - The hashtag loop and the caption.
  - The photo and video send loops, which retry while Telegram answers `RetryAfter`.
- **PyStrings** and **Common**: the Python string operations the code relies on (`str.lower`,
  `strip`, `split`, `join`, `replace`, `in`, `\s`, `\w`), plus `Option` and the `{title, year}`
  candidate.

The outside world enters only as values:

- **Oracles.** The guesser, the catalog endpoint, translation, the LLM endpoint, `json.loads`, the
  poster renderer and `os.path.exists` are function-typed parameters.
- **Channel answers.** Telegram's answers to successive send attempts are a finite sequence that
  the handler consumes.
- **Event log.** Everything the handler does outside (replies, searches, sleeps and sends) is
  recorded in order in an event log.

The handler is specified by a plan (`VideoHandler.Prepare`): either the handler halts with a given
log, or it goes on to post a given record. A posting plan carries the posting run of that record
on the channel's answers (`VideoHandler.PostingRun`): the photo retry loop when the image exists,
then the video retry loop under the record's caption, then the success or channel-error reply.
The methods that run the handler are proved to produce exactly the plan's log, outcome and number
of answers used, and the posting run is proved to consume the answers in order, to announce
success only right after the channel accepted the video, and to report a refusal last.

## Model

| member | source | states |
|---|---|---|
| Helpers.IsValidArchiveUrl | cinegram/utils/helpers.py:3-5 | true exactly when "archive.org/details/" occurs somewhere in the URL |
| Helpers.SegmentLength | cinegram/utils/helpers.py:10 | the greedy `[^/]+` run: no '/' inside it, and it stops at a '/' or at the end |
| Helpers.MatchFrom | cinegram/utils/helpers.py:10 | the leftmost position at or after `from` where the marker is followed by a character other than '/'; None when there is no such position |
| Helpers.ExtractIdentifier | cinegram/utils/helpers.py:7-13 | a value exactly when some marker occurrence is followed by a non-'/'; the value is non-empty, has no '/', follows the leftmost such occurrence, and is maximal (followed by '/' or the end) |
| Helpers.IdentifierImpliesValid | cinegram/utils/helpers.py:10-12 | a returned identifier means the URL is valid and contains marker + identifier |
| FilenameParser.WordRun | cinegram/services/filename_parser.py:19 | the greedy `\w+` run ends at a non-word character or the end |
| FilenameParser.StripMentions | cinegram/services/filename_parser.py:19 | no '@' followed by a word character remains; a name without '@' is unchanged |
| FilenameParser.StripUrls | cinegram/services/filename_parser.py:22 | no `https?://\S+` or `www\.\S+` match remains; the leading non-space run comes from the input; a name without a match is unchanged |
| FilenameParser.SpaceUnderscoresAt | cinegram/services/filename_parser.py:25 | same length; every '_' becomes ' ' and every other character is kept |
| FilenameParser.UnderscoresKeepNoUrl | cinegram/services/filename_parser.py:25 | turning underscores into spaces in a URL-free text leaves no '_' and creates no URL |
| FilenameParser.CleanName | cinegram/services/filename_parser.py:19-25 | the cleaned name is the mention- and URL-free text, character for character, with every '_' turned into ' '; it has no '_' and no URL |
| FilenameParser.CleanNameIdentity | cinegram/services/filename_parser.py:19-28 | a name with no '@', no URL and no '_' reaches the guesser unchanged |
| FilenameParser.ParseFilename | cinegram/services/filename_parser.py:9-44 | a candidate exactly when the guesser did not raise and gave a truthy title; that title is passed through; the year is `str(year)` when truthy (non-zero), else None |
| AiService.RemoveFencesLeavesNone | cinegram/services/ai_service.py:58 | after every "```" is removed no "```" is left, and a leading run of fewer than three backticks is kept |
| AiService.StripFences | cinegram/services/ai_service.py:55-58 | the cleaned answer contains no "```"; an answer without "```" reaches the decoder unchanged |
| AiService.StripFencesFenced | cinegram/services/ai_service.py:55-58 | a body without "```" wrapped as "```json\n" + body + "\n```" reaches the decoder as the body between its two line breaks |
| AiService.Interpret | cinegram/services/ai_service.py:60-71 | a candidate exactly when the decoded answer is an object whose title is truthy and not a placeholder (lower-cased); then title = `str(title)`, and year = `str(year)` exactly when the year is truthy |
| AiService.ExtractMetadata | cinegram/services/ai_service.py:16-78 | as written: an empty or missing text gives nothing and sends no prompt; otherwise one prompt carrying the text; an exception escapes exactly when the reply is a 2xx body that is not JSON; a candidate only from an answered request, and then exactly what `Interpret` gives for the stripped answer |
| AiService.ExtractMetadataIntended | cinegram/services/ai_service.py:16-78 | as its handlers intend: nothing ever escapes; otherwise the same prompt and the same candidate as `ExtractMetadata` |
| AiService.UnboundAnswerOnlyOnNotJson | cinegram/services/ai_service.py:48-75 | the code as written and as intended differ exactly on a 2xx body that is not JSON, where the intended result is `None` |
| AiService.UnboundAnswerExample | cinegram/services/ai_service.py:48-75 | for the text "Matrix.1999.mkv" and a 2xx non-JSON reply, the code as written raises and the intended code returns `None` |
| TmdbService.Pick | cinegram/services/tmdb_service.py:58-75 | the record is the result with every field kept except the overview, which is translated exactly when the request was in en-US and the overview is truthy |
| TmdbService.RelaxedQueriesFromSuffixes | cinegram/services/tmdb_service.py:41-44 | every relaxed query is the lower-cased title without one noise suffix that occurs in it case-insensitively, trimmed |
| TmdbService.RelaxRequests | cinegram/services/tmdb_service.py:41-48 | the relaxed stage sends at most one request per query, in order, each in es-MX and with the other parameters kept; the parameters left behind are the last ones sent |
| TmdbService.RelaxStopsAtFirstHit | cinegram/services/tmdb_service.py:41-48 | every relaxed request but the last came back empty; the stage stops at a transport error or at the first non-empty result, and otherwise runs every query |
| TmdbService.RelaxStage | cinegram/services/tmdb_service.py:41-48 | the `for noise in ...` loop with `break` computes the relaxed stage: the same requests, parameters, results and failure |
| TmdbService.SearchSpec | cinegram/services/tmdb_service.py:13-80 | no request is sent exactly when the API key is empty; at most one request per relaxed query, plus the first and the en-US one |
| TmdbService.SearchMovie | cinegram/services/tmdb_service.py:13-80 | the method with the mutable `params` record and the stage loop returns exactly the staged search's record and requests |
| TmdbService.SpanishStagesRun | cinegram/services/tmdb_service.py:22-48 | the Spanish stages begin with the first request, go on with the relaxed queries in order, stop at the first request that raised or found something, and leave the last request as the parameters |
| TmdbService.SearchNeedsKey | cinegram/services/tmdb_service.py:18-20 | with no API key nothing is requested and nothing is found |
| TmdbService.RequestsKeepParameters | cinegram/services/tmdb_service.py:23-30 | the first request is the title in es-MX, page 1, with the year set exactly when it is truthy; every later request keeps the key, the page and the year |
| TmdbService.RelaxedRequests | cinegram/services/tmdb_service.py:37-48 | a later es-MX request queries the title without a noise suffix found in it case-insensitively, lower-cased and trimmed |
| TmdbService.StagesRunInOrder | cinegram/services/tmdb_service.py:32-56 | every request but the last was answered, with no results, so each stage runs only when everything before it was empty |
| TmdbService.EnglishComesLast | cinegram/services/tmdb_service.py:50-56 | an en-US request can only be the last one, and it queries the original untrimmed title with the same year |
| TmdbService.EnglishFallbackReached | cinegram/services/tmdb_service.py:50-56 | when stage 1 answered with no results and the relaxed stage neither raised nor found anything, the last request is the en-US query on the original title |
| TmdbService.FoundIsFirstResult | cinegram/services/tmdb_service.py:58-80 | the record found is the first result of the last request, translated only when that request was en-US; when nothing is found, no request got a 2xx answer with results |
| TmdbService.PosterUrl | cinegram/services/tmdb_service.py:83-86 | None exactly for an empty or missing path; otherwise IMAGE_BASE_URL followed by the path |
| TmdbService.GenreNameTrimmed | cinegram/services/tmdb_service.py:92-99 | every genre name, the default "Cine" included, is non-empty and has no surrounding whitespace |
| TmdbService.GenreNameNoComma | cinegram/services/tmdb_service.py:92-99 | no genre name contains a comma |
| TmdbService.GenreNames | cinegram/services/tmdb_service.py:99 | the names of the first two ids at most, in order, with the table lookup and its "Cine" default |
| TmdbService.GetGenres | cinegram/services/tmdb_service.py:89-99 | the empty text for no ids, the one name for one id, and otherwise the names of the first two ids joined by ", " (later ids are ignored) |
| TmdbService.GenresEmpty | cinegram/services/tmdb_service.py:89-99 | the genre text is empty exactly when the id list is empty |
| VideoHandler.RetryRun | cinegram/handlers/video_handler.py:113-123 | the number of leading `RetryAfter` answers: all before it ask to wait, and the next one does not |
| VideoHandler.WaitNotices | cinegram/handlers/video_handler.py:164-167 | at most one notice per answer, each a wait notice |
| VideoHandler.RetryLogViews | cinegram/handlers/video_handler.py:113-123 | a retry loop's log consumes its answers in order, sleeps their `RetryAfter` total, searches nothing, and replies only with wait notices, and only for the video |
| VideoHandler.SendWithRetry | cinegram/handlers/video_handler.py:113-123 | the `while True` loop sends until the first answer other than `RetryAfter`, which it returns; it returns nothing when the answers run out first; its log is the retry log of the answers used; what it returns and uses are `Settling` and `Spent` of the answers |
| VideoHandler.SettlingByRun | cinegram/handlers/video_handler.py:113-123 | a send loop settles on the first answer after the leading `RetryAfter` run and takes one more answer than that run; when every answer asks to wait it settles on nothing and takes them all |
| VideoHandler.SettlesLast | cinegram/handlers/video_handler.py:113-123 | the settling answer is the last answer the loop takes; without one the loop takes every answer |
| VideoHandler.SleepBeforeSettling | cinegram/handlers/video_handler.py:154-167 | when the channel finally accepts or refuses, the time slept is the sum of the waits asked for before that answer |
| VideoHandler.CloseWith | cinegram/handlers/video_handler.py:163-173 | a closing reply after a silent send log keeps the answers and searches, ends the log, and announces success exactly when it is the success reply |
| VideoHandler.CamelCase | cinegram/handlers/video_handler.py:133 | the tag has no whitespace, as many characters as the entry's words, is empty exactly when the entry has no word, and starts with the upper-cased first letter of the first word |
| VideoHandler.CamelCaseOfWords | cinegram/handlers/video_handler.py:133 | for non-empty words without whitespace joined by spaces, the tag is each word capitalised (first letter upper, rest lower), concatenated |
| VideoHandler.CamelCaseExample | cinegram/handlers/video_handler.py:132-133 | "Ciencia ficción" gives "CienciaFicción" |
| VideoHandler.Hashtags | cinegram/handlers/video_handler.py:126-136 | at most 3 tags, none exactly when the genre text is empty, each starting with '#' and without whitespace |
| VideoHandler.HashtagList | cinegram/handlers/video_handler.py:126-134 | the `append` loop over the first three entries builds exactly those tags |
| VideoHandler.HashtagLineWords | cinegram/handlers/video_handler.py:136 | the space-joined hashtag line splits back into the tags |
| VideoHandler.HashtagsOfGenres | cinegram/handlers/video_handler.py:126-136 | for a catalog genre text there is one tag per genre id (two at most): '#' followed by the camel-cased genre name |
| VideoHandler.GenreEntries | cinegram/handlers/video_handler.py:129 | splitting the genre text at ',' and stripping gives back the names of the first two ids |
| VideoHandler.Caption | cinegram/handlers/video_handler.py:139-149 | the caption opens with the title label and the title, ends with the hashtag line and the footer, and its length depends on the synopsis only through the first min(800, length) characters shown |
| VideoHandler.CaptionSynopsis | cinegram/handlers/video_handler.py:139-149 | right after the caption head come the first min(800, length) characters of the synopsis, then "..." |
| VideoHandler.CaptionIgnoresSynopsisTail | cinegram/handlers/video_handler.py:146 | two synopses that agree on their first 800 characters give the same caption |
| VideoHandler.FileName | cinegram/handlers/video_handler.py:37 | the media's file name when it is truthy, "Unknown_Movie.mp4" otherwise; never empty |
| VideoHandler.Searches | cinegram/handlers/video_handler.py:57-62 | one or two catalog searches, all for the parsed title |
| VideoHandler.SecondSearchOnlyAfterMiss | cinegram/handlers/video_handler.py:57-62 | the first search uses the parsed year; the second runs exactly when the first found nothing and the year is truthy, and it has no year; the record used is what the last search found |
| VideoHandler.LookUp | cinegram/handlers/video_handler.py:57-62 | the two-search step logs exactly those searches and returns that record |
| VideoHandler.Vet | cinegram/handlers/video_handler.py:76-101 | the gate on a found record halts only by crashing, as incomplete, or because rendering failed |
| VideoHandler.Examine | cinegram/handlers/video_handler.py:42-101 | from the parse result on, the handler halts only when parsing failed, nothing was found, or the record was refused |
| VideoHandler.Prepare | cinegram/handlers/video_handler.py:26-101 | the handler halts before posting only for those reasons, or when the message has no video or document |
| VideoHandler.PrepareIsSilent | cinegram/handlers/video_handler.py:26-101 | before the posting starts, nothing is sent to the channel, nothing is slept and no success is announced |
| VideoHandler.PostPhoto | cinegram/handlers/video_handler.py:111-123 | with an empty path or no file nothing is sent and no answer is used; otherwise the photo retry loop over exactly the answers up to the settling one, stalling exactly when no answer settles; it never replies or searches, and a refusal skips the image |
| VideoHandler.PostVideo | cinegram/handlers/video_handler.py:154-173 | the run is the video run of the answers: the retry log up to the settling answer, then the success reply after `Sent`, the channel-error reply after a refusal, nothing when the answers run out; the answers are consumed in order and success is announced once, last, right after the accepted video |
| VideoHandler.VideoRunPosted | cinegram/handlers/video_handler.py:154-173 | the video run consumes the answers in order, searches nothing, and announces success once, last, right after the accepted video; a refusal is reported last |
| VideoHandler.VideoDecides | cinegram/handlers/video_handler.py:154-173 | the first answer after the leading waits decides the video post: it stalls exactly when there is none, publishes exactly when it is `Sent`, reports its error when it is a failure; the replies are one wait notice per wait, then the closing reply |
| VideoHandler.Announce | cinegram/handlers/video_handler.py:125-173 | the run is the announce run: a null synopsis fails with the `None[:800]` error reply, sending nothing and using no answer; otherwise the video run under the caption built from the hashtags of the genre text; the posting promises hold |
| VideoHandler.AnnounceRunPosted | cinegram/handlers/video_handler.py:125-173 | everything after the image keeps the posting promises, with success right after the video sent under the record's caption |
| VideoHandler.Publish | cinegram/handlers/video_handler.py:110-173 | the run is the posting run: the photo loop first when the path is non-empty and exists, which ends the posting if the answers run out, then the announce run on the answers left; the posting promises hold |
| VideoHandler.PostingRunPosted | cinegram/handlers/video_handler.py:110-173 | the posting run consumes the answers in order, searches nothing, ends in success, a channel error or running out of answers (having used them all), announces success once, last, right after the video went out, and reports a refusal last |
| VideoHandler.PostingDecides | cinegram/handlers/video_handler.py:110-173 | a posting run uses at most the answers given; it publishes only with a synopsis and when the last answer it took is `Sent`; a refused video is reported with the last answer's error; it stalls only after taking every answer; when the image exists the image is the first thing sent |
| VideoHandler.Check | cinegram/handlers/video_handler.py:76-173 | from the record on, the run is the gate's plan: each halt's exact replies and no answer used, or the "generating" reply followed by exactly the posting run of the record, with its outcome and answers used |
| VideoHandler.Proceed | cinegram/handlers/video_handler.py:42-173 | from the parse result on, the run is exactly the plan for that parse result |
| VideoHandler.VideoEntry | cinegram/handlers/video_handler.py:17-173 | `video_entry` carries out its plan: each halting path produces exactly its log and uses no answer; a posting run is the plan's log followed by exactly the posting run's events, outcome and answers used |
| VideoHandler.PostPlanCarried | cinegram/handlers/video_handler.py:110-173 | a run that carries out a posting plan starts with the plan's log and ends in success, a channel error (reported last) or running out of answers (all used); success needs a synopsis and ends with the video sent under the record's caption and the success reply |
| VideoHandler.PlannedRun | cinegram/handlers/video_handler.py:76-173 | a posting plan carries the posting run of its record on the answers |
| VideoHandler.PlanDecides | cinegram/handlers/video_handler.py:110-173 | for any plan whose posting run is that of its record, the channel's answers decide the end: success only with a synopsis, after an accepted video as the last answer taken; a channel error last; stalling only with every answer taken |
| VideoHandler.AnswersDecide | cinegram/handlers/video_handler.py:17-173 | for `video_entry`: success only for a posting plan with a synopsis, when the last answer taken accepted the video sent under the record's caption, followed by the success reply; a channel error is reported last; it stalls only once every answer is taken |
| VideoHandler.StopsBeforeSearching | cinegram/handlers/video_handler.py:26-49 | no media means no reply at all; with media, parsing fails exactly when the parser returns nothing, and then the only replies are "processing" and the error |
| VideoHandler.SearchesAfterParsing | cinegram/handlers/video_handler.py:42-62 | after a successful parse, the searches in the log are exactly the one or two searches for the parsed title and year |
| VideoHandler.VetPasses | cinegram/handlers/video_handler.py:76-101 | a record passes the gate only with a truthy poster path and a non-empty year (the first at most 4 characters of the release date); the posted fields come from the record and the render result |
| VideoHandler.PostsOnlyCompleteRecords | cinegram/handlers/video_handler.py:42-101 | a run that halts sends and sleeps nothing; a send happens only for media whose name parsed, whose search found a record, and whose record passed the gate |

## Left out

- `cinegram/services/image_generator.py` (image loading, resizing, blur, fonts, file writes) is not
  part of this model. Poster rendering is the oracle `render`, which either raises or returns a path.
- `cinegram/bot.py`, handler registration and `handle_manual_correction` are not part of this model.
- `schedule_deletion` and `_delete_task` (`cinegram/utils/helpers.py:22-31`) are not modelled:
  they are fire-and-forget asyncio tasks around a Telegram call.
- `test_ai.py` only prints what the live LLM answers, so there is nothing in it to model.
- Oracles:
  - HTTP requests to TMDB and to the LLM endpoint, translation, `guessit`, `json.loads`, poster
    rendering and `os.path.exists` are oracle functions.
  - An HTTP failure or a non-2xx status the code checks is an explicit reply value.
  - A `response.json()` without `results` is a reply with no results.
- The TMDB URL, the LLM endpoint and its payload options are not modelled. A catalog request is
  identified by its parameters, and an LLM request by its prompt.
- TmdbService: the relaxed stage ignores the HTTP status of its replies, because the code calls
  `raise_for_status` only in stages 1 and 3.
- VideoHandler: `round(vote_average, 1)` is floating-point rounding. The rating is the record's
  vote average as an opaque display string.
- VideoHandler: a record field that is missing and one that is null are both `None`.
  - `search_movie` always builds every key, so `release_date` is either a string or null, and null
    makes `[:4]` raise.
  - The same holds for `vote_average` (`round`) and `genre_ids` (slicing).
  - All three raise outside the `try` block, so the outcome is `Crashed` and the log ends with
    the searches.
- VideoHandler.SendWithRetry: the loops in the code never stop while Telegram keeps answering
  `RetryAfter`. Here the answers are a finite sequence, and running out of it ends the run as
  `Stalled`.
- VideoHandler: `reply_text` is assumed to succeed. A reply that raises is not modelled.
- VideoHandler: the `CHANNEL_ID` setting, the Markdown parse mode and the Instagram button are not
  modelled. A send is identified by what is uploaded.
- VideoHandler: replies are values of `Notice` that carry what their texts interpolate. Their emoji
  and wording are not modelled. Only the caption is modelled as text.
- Logging calls are not modelled.
- AiService: `HttpReply.NotJson` stands for a 2xx body that `response.json()` cannot decode, which
  raises `JSONDecodeError` (a subclass of it in recent `requests`). What the escaping
  `UnboundLocalError` then does to the caller is not modelled: nothing in this model calls
  `extract_metadata`.
- PyStrings:
  - `\s` is Python's whitespace set.
  - `\w` is exact below U+0100 and treats every character above it as a non-word character.
  - Lower and upper case are exact for ASCII and Latin-1.
  - Unicode normalisation, and case mappings that change length, are not modelled.
- PyStrings.Take: its contract states only the length. The content is its body, a slice of the
  input.
- PyStrings.TrimLeft and PyStrings.TrimRight: their contracts state the ends and the length bound,
  not which characters were removed.
- FilenameParser: `guessit` returns an optional title and an optional integer year, or raises.
  Lists of titles or years are not modelled.

## Findings

| source | as written | input that shows it | evidently intended | confidence | as-written member | corrected member |
|---|---|---|---|---|---|---|
| cinegram/services/ai_service.py:48-75 | when `response.json()` raises `JSONDecodeError`, the handler at line 73 logs `answer`, which is only assigned at line 53, so `UnboundLocalError` escapes the function | any non-empty text, with the model endpoint answering 200 with a body that is not JSON (an HTML error page) | log the invalid answer and return `None`, as for every other failure | not executed; follows from Python's scoping rules | AiService.ExtractMetadata, AiService.UnboundAnswerExample | AiService.ExtractMetadataIntended |

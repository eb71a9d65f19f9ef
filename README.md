# youtube-transcripter backend, modelled in Dafny

The backend of youtube-transcripter is a FastAPI service with one real endpoint,
`POST /api/transcript`. The client posts a YouTube URL. The service then:

- extracts the video id from the URL with two regular expressions, tried in order;
- downloads the caption entries for that id;
- joins the entry texts into one transcript, and counts its words;
- derives a reading time, a `M:SS` duration and a thumbnail URL;
- returns all of it as `{"success": true, "data": ...}`.

Failures become `HTTPException`s. A failed download is classified by substrings of its
message, and every class has status 400. An invalid URL raises `ValueError`, which the
endpoint reports as status 400. Any other exception becomes status 500 with
`"Server error: "` in front. That includes the 400 raised while downloading, because it
is not a `ValueError`.

The model follows `youtube-transcripter-backend/main.py`, one module per concern:

| file | module | contents |
|---|---|---|
| `wrappers.dfy` | `Wrappers` | `Option`, `Result` |
| `strings.dfy` | `Strings` | the Python `str` behaviour the backend relies on: `isspace`, `strip()`, `split()`, `in`, `str(int)`, `:02d` |
| `errors.dfy` | `Errors` | the two exception classes and the download-error classification |
| `video_id.dfy` | `VideoId` | `extract_video_id` |
| `video_id_examples.dfy` | `VideoIdExamples` | three links worked through the extractor |
| `transcript.dfy` | `Transcript` | `get_video_info` |
| `endpoint.dfy` | `Endpoint` | `get_transcript` |

How the regular expressions are modelled:

- Both are written out as matchers over strings.
- `re.search` tries every start position from the left.
- Pattern one tries its three prefixes in the order they are listed. It falls through to the next prefix when the capture group would be empty.
- Pattern two's greedy `.*` cannot cross a newline. It therefore picks the last `v=`, followed by a group, on the rest of the prefix's line.
- Each matcher is proved equal to a declarative description of a match (`PrefixMatch`, `QueryMatch`), in both directions.

The loop over the pattern list (`ExtractVideoId`) and the loop that appends each entry's
text (`JoinTexts`) are methods with loop invariants, proved against the functions
`VideoIdOf` and `Joined`.

## Model

| member | source | states |
|---|---|---|
| `VideoId.ExtractVideoId` | youtube-transcripter-backend/main.py:23-34 | The loop over the two patterns returns pattern one's group if it matches, else pattern two's, else raises `ValueError("Invalid YouTube URL")`; equal to `VideoIdOf` |
| `VideoId.VideoIdOf` | youtube-transcripter-backend/main.py:23-34 | A returned id is non-empty and has none of `&`, `?`, `#` or newline; the call fails exactly when neither search finds anything, and then always with `ValueError("Invalid YouTube URL")` |
| `VideoId.GroupAt` | youtube-transcripter-backend/main.py:25-26 | The group `([^&\n?#]+)` at a position is the longest run of allowed characters there; there is none exactly when the position is at the end or holds `&`, `?`, `#` or newline |
| `VideoId.IdRunIsGroup` | youtube-transcripter-backend/main.py:25-26 | Any maximal run of allowed characters at a position is the group found there |
| `VideoId.AlternativesAt` | youtube-transcripter-backend/main.py:25 | A match of pattern one at a position comes from one of the listed prefixes occurring there, followed by a group; no match means every prefix occurring there is followed by an empty group |
| `VideoId.PrefixesExclusive` | youtube-transcripter-backend/main.py:25 | No two of the three prefixes occur at the same position, so the order of the alternation does not change the result |
| `VideoId.PrefixMatchAtIff` | youtube-transcripter-backend/main.py:25 | Pattern one matches at a position with a given group exactly when one of the three prefixes occurs there and the group is the maximal allowed run right after it |
| `VideoId.LineEnd` | youtube-transcripter-backend/main.py:26 | `.*` reaches up to the first newline or the end of the URL, and no further |
| `VideoId.LastVParam` | youtube-transcripter-backend/main.py:26 | The greedy `.*v=` picks the last `v=` followed by a group in the reachable stretch, and none exists when it finds nothing |
| `VideoId.QueryAt` | youtube-transcripter-backend/main.py:26 | A match of pattern two at a position starts there with `youtube.com/watch?`, and its group is a maximal allowed run right after an occurrence of `v=` |
| `VideoId.CandidateWithinLine` | youtube-transcripter-backend/main.py:26 | A `v=` after the query prefix with no newline in between is within the stretch `.*` can reach |
| `VideoId.VParamWithinLineIsCandidate` | youtube-transcripter-backend/main.py:26 | Conversely, every `v=` with a group in that stretch is a candidate for `.*v=` |
| `VideoId.QueryMatchIsFound` | youtube-transcripter-backend/main.py:26 | The last candidate `v=` on the line gives pattern two's match at that position |
| `VideoId.QueryFoundIsMatch` | youtube-transcripter-backend/main.py:26 | Pattern two's match at a position is always the last candidate `v=` on the line |
| `VideoId.QueryMatchAtIff` | youtube-transcripter-backend/main.py:26 | Pattern two matches at a position with a given group exactly when `youtube.com/watch?` occurs there and the group follows the last `v=` on the rest of the line, both directions |
| `VideoId.SearchFrom` | youtube-transcripter-backend/main.py:30 | `re.search`: the match found is the leftmost position with a match, and no match means no position has one |
| `VideoId.MatchWithinString` | youtube-transcripter-backend/main.py:30 | A match never starts at the end of the URL |
| `VideoId.PrefixSearchSound` | youtube-transcripter-backend/main.py:25-30 | What searching with pattern one returns is a declarative pattern-one match, and none starts further left |
| `VideoId.PrefixSearchComplete` | youtube-transcripter-backend/main.py:25-30 | The leftmost declarative pattern-one match is what the search returns |
| `VideoId.PrefixSearchFailsIff` | youtube-transcripter-backend/main.py:25-30 | Pattern one finds nothing exactly when no position holds a match |
| `VideoId.QuerySearchSound` | youtube-transcripter-backend/main.py:26-30 | What searching with pattern two returns is a declarative pattern-two match, and none starts further left |
| `VideoId.QuerySearchComplete` | youtube-transcripter-backend/main.py:26-30 | The leftmost declarative pattern-two match is what the search returns |
| `VideoId.QuerySearchFailsIff` | youtube-transcripter-backend/main.py:26-30 | Pattern two finds nothing exactly when no position holds a match |
| `VideoId.ExtractsFirstPrefixMatch` | youtube-transcripter-backend/main.py:29-32 | Pattern one is tried first: whenever it matches, its leftmost group is the id, whatever pattern two would find |
| `VideoId.ExtractsFirstQueryMatch` | youtube-transcripter-backend/main.py:29-32 | When pattern one matches nowhere, the group of pattern two's leftmost match is the id |
| `VideoId.ExtractedIdIsFirstMatch` | youtube-transcripter-backend/main.py:29-32 | Every id returned is the group of pattern one's leftmost match, or, when pattern one matches nowhere, of pattern two's leftmost match |
| `VideoId.InvalidUrlIff` | youtube-transcripter-backend/main.py:34 | `ValueError("Invalid YouTube URL")` is raised exactly when neither pattern matches anywhere in the URL |
| `VideoIdExamples.ShortLink` | youtube-transcripter-backend/main.py:23-34 | `https://youtu.be/abc123` gives `abc123` |
| `VideoIdExamples.WatchLink` | youtube-transcripter-backend/main.py:23-34 | `https://www.youtube.com/watch?v=abc&t=1` gives `abc` |
| `VideoIdExamples.QueryLink` | youtube-transcripter-backend/main.py:23-34 | `https://www.youtube.com/watch?feature=share&v=abc` gives `abc`, through pattern two |
| `VideoIdExamples.QueryLinkHasNoPrefixMatch` | youtube-transcripter-backend/main.py:25 | Pattern one matches nowhere in that last link |
| `VideoIdExamples.QueryLinkQueryMatch` | youtube-transcripter-backend/main.py:26 | Pattern two's leftmost match in that link takes the group after its `v=` |
| `Transcript.JoinTexts` | youtube-transcripter-backend/main.py:45-47 | The loop's text is every entry's text followed by one space, in entry order (`Joined`) |
| `Transcript.JoinedWords` | youtube-transcripter-backend/main.py:45-53 | The joined text splits into exactly the words of each entry in turn; the added space keeps neighbouring entries' words apart |
| `Transcript.TranscriptText` | youtube-transcripter-backend/main.py:45-50 | The stored transcript is the joined text (each entry's text and one space, in order) with its outer whitespace removed as `strip()` does; it neither starts nor ends with whitespace, and has exactly the words of the entries |
| `Transcript.TranscriptKeepsInnerWhitespace` | youtube-transcripter-backend/main.py:45-50 | Whitespace inside an entry is kept: the single entry "a\nb" gives the transcript "a\nb" |
| `Transcript.ReadingTime` | youtube-transcripter-backend/main.py:54 | `max(1, words // 200)`: at least 1, exactly 1 below 400 words, and otherwise the whole number of 200-word blocks |
| `Transcript.ReadingTimeMonotone` | youtube-transcripter-backend/main.py:54 | More words never give a shorter reading time |
| `Transcript.FormatDuration` | youtube-transcripter-backend/main.py:56-62 | The duration is "Unknown" exactly when there are no entries |
| `Transcript.EndSeconds` | youtube-transcripter-backend/main.py:57-59 | The whole seconds at the end of the last entry are the floor of its start plus duration |
| `Transcript.DurationReadsBack` | youtube-transcripter-backend/main.py:57-60 | For a non-empty list the duration is `M:SS`: the text before the colon is `str(M)`, the text after it is SS as `:02d` with SS in 0..59, and M*60 + SS is the floor of the last entry's start plus duration |
| `Transcript.DurationUsesLastEntry` | youtube-transcripter-backend/main.py:57 | Two lists with the same last entry get the same duration |
| `Transcript.ThumbnailUrl` | youtube-transcripter-backend/main.py:71 | The thumbnail URL starts with `https://img.youtube.com/vi/` and ends with `/maxresdefault.jpg` |
| `Transcript.ThumbnailRoundTrip` | youtube-transcripter-backend/main.py:71 | The video id reads back out of its thumbnail URL |
| `Transcript.Summarize` | youtube-transcripter-backend/main.py:64-72 | The record keeps the video id and the entry list unchanged; its transcript is the stripped joined text; its word count is the number of words of the entries; its reading time, duration and thumbnail URL are the ones above |
| `Transcript.GetVideoInfo` | youtube-transcripter-backend/main.py:36-85 | A download that succeeds gives the record; one that fails raises the classified `HTTPException` |
| `Errors.ClassifyFetchError` | youtube-transcripter-backend/main.py:78-85 | Every classified download failure is an `HTTPException` with status 400 |
| `Errors.ClassificationOrder` | youtube-transcripter-backend/main.py:78-85 | The first substring found, in the order "no element found", "Video unavailable", "TranscriptsDisabled", picks its fixed detail, otherwise "Error fetching transcript: " + the message; each in both directions |
| `Errors.FallbackKeepsMessage` | youtube-transcripter-backend/main.py:85 | The fallback detail gives the original message back after its prefix |
| `Endpoint.Rethrow` | youtube-transcripter-backend/main.py:100-105 | A `ValueError` becomes status 400 with its message; any other exception becomes status 500 with "Server error: " before its text; 400 exactly for `ValueError` |
| `Endpoint.GetTranscript` | youtube-transcripter-backend/main.py:87-105 | Invalid URL: 400 "Invalid YouTube URL". Failed download: 500 with "Server error: " and the text of the 400 raised inside. Otherwise `success = true` with the record for the extracted id. Status 400 exactly when the URL is invalid |
| `Strings.Strip` | youtube-transcripter-backend/main.py:50 | `strip()` removes a whitespace prefix and a whitespace suffix, and what is left neither starts nor ends with whitespace |
| `Strings.StripOfUnique` | youtube-transcripter-backend/main.py:50 | Any two ways of removing a whitespace prefix and suffix that leave no whitespace at either end give the same text, so the description above fixes `strip()`'s result |
| `Strings.StripOfBounds` | youtube-transcripter-backend/main.py:50 | Everything `strip()` removes is whitespace, and the ends of what it keeps are not |
| `Strings.TrimStart` | youtube-transcripter-backend/main.py:50 | Drops only leading whitespace, and keeps a suffix that does not start with whitespace |
| `Strings.TrimEnd` | youtube-transcripter-backend/main.py:50 | Drops only trailing whitespace, and keeps a prefix that does not end with whitespace |
| `Strings.Split` | youtube-transcripter-backend/main.py:53 | Every token of `split()` is non-empty and free of whitespace |
| `Strings.SplitUnwords` | youtube-transcripter-backend/main.py:53 | Splitting words joined by single spaces gives the words back |
| `Strings.SplitStrip` | youtube-transcripter-backend/main.py:50-53 | `s.strip().split()` equals `s.split()` |
| `Strings.SplitConcat` | youtube-transcripter-backend/main.py:47-53 | Splitting distributes over a concatenation whose left part ends in whitespace |
| `Strings.SplitAppendSpace` | youtube-transcripter-backend/main.py:47-53 | Trailing whitespace never changes the words |
| `Strings.SplitPrependSpace` | youtube-transcripter-backend/main.py:50-53 | Leading whitespace never changes the words |
| `Strings.Contains` | youtube-transcripter-backend/main.py:78-82 | The `in` test holds exactly when the substring occurs at some position |
| `Strings.NatToString` | youtube-transcripter-backend/main.py:60 | `str(n)` for a natural number is non-empty decimal digits, starting with 0 only for 0 itself |
| `Strings.IntToString` | youtube-transcripter-backend/main.py:60 | `str(i)` is decimal text: for i >= 0 exactly NatToString(i), with no leading zero; for negatives a minus sign followed by NatToString(-i) |
| `Strings.NatToStringRoundTrip` | youtube-transcripter-backend/main.py:60 | The decimal text of a natural number reads back as that number |
| `Strings.IntToStringRoundTrip` | youtube-transcripter-backend/main.py:60 | `str(int)` reads back as the same integer, with the minus sign exactly for negatives |
| `Strings.ZeroPad2` | youtube-transcripter-backend/main.py:60 | `:02d` of a number below 100 is exactly two digits |
| `Strings.ZeroPad2RoundTrip` | youtube-transcripter-backend/main.py:60 | Those two digits read back as the number |

## Left out

- The FastAPI application, CORS middleware, routes and uvicorn start-up (youtube-transcripter-backend/main.py:9-18, 145-147) are framework plumbing.
- The `/api/health`, `/api/test/{video_id}` and `/api/test-connectivity` endpoints (youtube-transcripter-backend/main.py:107-143) are network probes and a constant reply.
- `YouTubeTranscriptApi.get_transcript` (youtube-transcripter-backend/main.py:41) is a network call. `GetVideoInfo` takes its outcome as an argument: the entries, or the text of the exception. `GetTranscript` takes it as the function parameter `fetch`.
- `print` calls are logging only.
- `GetTranscript`: the text of an `HTTPException`, as `str(e)` gives it, is defined by the web framework, which is not part of this model. It is the opaque parameter `describe`, applied to the status code and detail.
- `Transcript.EndSeconds`: the entries' `start` and `duration` are exact real numbers, not binary floats; the rounding of float addition, `//` and `%` is not modelled. For any sign, Python's floor division and remainder by 60 on the float give the same minutes and seconds as Dafny's `/` and `%` by 60 on its floor.
- `Transcript.Caption`: an entry is a typed record with `text`, `start` and `duration`. The `KeyError` or `TypeError` that a malformed entry would raise inside `get_video_info`, and its classification, are not modelled.
- `Strings.IsSpace` fixes Python's whitespace set for `str.isspace` as a list of code points. Unicode data beyond that list is not modelled.
- The React front end (src/App.tsx, src/HomePage.tsx, src/TranscriptPage.tsx) is UI, browser storage and fetch calls.

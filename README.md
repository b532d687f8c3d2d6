# yt-dlp format normaliser of the YouTube downloader server

The server has two endpoints. `GET /video-info` runs `yt-dlp -J` on a URL,
parses its JSON, narrows the tool's list of format records to the options the
page offers, and answers with a summary. `GET /download` streams one chosen
format back. This project models the decision logic of that server in Dafny:

- the format-selection loop (`server.js` lines 70-115) as the method
  `Formats.SelectFormats`. It keeps the source's `seen` set, its `mp3Added`
  flag and its output sequence, and is proved equal to a declarative
  description, the ghost function `Formats.Normalize`. There each record
  contributes a video option when it is the first mp4 record of an allowed
  resolution key that has a size. It contributes the audio option when it is
  the first mp3 record that has a size;
- `calculateAspectRatio` with its recursive Euclidean `gcd` (lines 24-29)
  as `Ratio.AspectRatio` and `Ratio.Gcd`;
- `getQualityLabel` (lines 31-41) as `Quality.QualityLabel`. The server
  defines it but never calls it;
- the summary object and its defaults for title, thumbnail and duration
  (lines 117-122) as `VideoInfo.BuildSummary`;
- the two request-parameter checks (lines 46 and 144).

JavaScript truthiness is explicit throughout:
- a JSON number is `Option<nat>`, and it is falsy when absent or zero;
- a string is `Option<string>`, and it is falsy when absent or empty;
- byte counts are `nat`, with 0 for absent, null or zero.

The resolution key is `"{width}x{height}"`:
- a dimension is rendered by `Decimal.NatToString`, JavaScript's shortest
  decimal form for integers below 10^21;
- an absent one is rendered as `null`.

The size the handler reports is kept as the tag `Exact(bytes)`,
`Approx(bytes)` or `SizeNA`. `Formats.SizeText` renders it as `toFixed(2)`
would, using integer arithmetic: `Decimal.Hundredths` gives the nearest
hundredth, ties up, and `Decimal.FixedTwo` prints it.

Behaviours of the code worth noting:
- Deduplication is keyed on the `"{width}x{height}"` key alone. The `seen`
  set only ever holds keys of mp4 records. The container is not part of the
  key.
- The thumbnail falls back to the last `thumbnails` entry whenever
  `thumbnail` is falsy, not only when it is absent. If that entry has no
  truthy url, the thumbnail is `""`.
- A parsed object without a `formats` list makes `for..of` throw inside the
  `try`. The handler then reports "Failed to parse video information". The
  model returns `Err(ParseFailure)` for it.

Two behaviours look arguable but follow the code:
- the 480p and 240p rows (854x480, 426x240) give the ratios "427:240" and "71:40" rather than 16:9;
- duplicates of a key are resolved by input order alone, not by quality.

## Model

| member | source | states |
|---|---|---|
| Formats.SelectFormats | server.js:81-115 | the loop with `seen`, `mp3Added` and `push` returns exactly `Normalize(formats)`; its invariants are that `seen` is the set of keys of the video candidates so far and that `mp3Added` holds iff a sized mp3 record has been met |
| Formats.SelectStep | server.js:85-114 | one turn of the loop: the new output is the old plus a video option iff the record is a video candidate with an unseen key, plus an audio option iff the flag is down and the record is a sized mp3; `seen` and the flag change accordingly |
| Formats.SizeOf | server.js:97-98 | the size is `SizeNA` iff neither `filesize` nor `filesize_approx` is truthy; it is `Exact(filesize)` iff `filesize` is truthy, otherwise `Approx(filesize_approx)` |
| Formats.DimensionText | server.js:86 | a dimension as `${x}`: its decimal digits, or "null" when absent; it never contains an 'x', and different dimensions give different texts (`ResolutionKeys.DimensionTextNoX`, `ResolutionKeys.DimensionTextInjective`) |
| Formats.ResolutionKey | server.js:86 | `"{width}x{height}"`; same key iff same width and height (`ResolutionKeys.ResolutionKeyInjective`) |
| Formats.VideoOption | server.js:91-98 | the pushed video object: mp4, `itag` the record's `format_id`, resolution its key, quality label the table's entry for that key, ratio `calculateAspectRatio` of its dimensions, size `SizeOf` of the record; for an allowed key the ratio is a reduced `p:q`, never "N/A" (`ResolutionKeys.VideoAspectRatio`) |
| Formats.AudioOption | server.js:104-111 | the pushed audio object: mp3, `itag` the record's `format_id`, "Audio (MP3)", "audio", "N/A", size `SizeOf` of the record |
| Formats.SizeText | server.js:97-98 | "N/A" exactly for `SizeNA`; otherwise `Megabytes` of the byte count followed by " MB", with a leading "~" exactly for `Approx`; the number is pinned by `Decimal.Megabytes` (the "N/A" branch is unreachable from the loop, see "## Left out") |
| Formats.Normalize | server.js:85-115 | the declarative description of the loop's output, each record's contribution in input order; what it offers is stated by `FormatProperties.NormalizeProvenance`, `NormalizeComplete`, `NormalizeCount` and `NormalizeBounded` |
| Formats.CandidateKeysSnoc | server.js:100 | the set of keys seen after a record is the old set plus that record's key exactly when the record passes the video filter |
| FormatProperties.ContributionAtMostOne | server.js:90-114 | one record yields at most one option |
| FormatProperties.NormalizeProvenance | server.js:85-115 | every option comes from a distinct record, in input order; that record is the first video candidate with its key (video option) or the first sized mp3 (audio option), and the option is built from it |
| FormatProperties.VideoFirstSeen | server.js:85-101 | first seen wins: a video option's `itag` is the `format_id`, and its resolution the key, of a record passing the video filter before which no record passes it with the same key |
| FormatProperties.AudioFirstSeen | server.js:103-114 | the audio option's `itag` is the `format_id` of the first sized mp3 record |
| FormatProperties.UniqueVideoResolutions | server.js:90-100 | no two video options share a resolution key, whatever the input holds |
| FormatProperties.AtMostOneAudio | server.js:103-113 | at most one audio option is offered |
| FormatProperties.OptionFields | server.js:87-112 | each option is an mp4 with an allowed key, the table's label for it and the record's aspect ratio, or the mp3 with the fixed audio fields; its size is never `SizeNA`, it is the record's size, and it is exact iff `filesize` is truthy |
| FormatProperties.NormalizeComplete | server.js:85-115 | nothing is dropped: the offered video keys are exactly the keys of the records passing the video filter, and an audio option is offered iff a sized mp3 record exists |
| FormatProperties.NormalizeCount | server.js:85-115 | the number of options is the number of distinct candidate keys plus one when a sized mp3 record exists |
| FormatProperties.CandidateKeysBounded | server.js:70-79 | at most eight distinct video keys can pass the filter |
| FormatProperties.NormalizeBounded | server.js:70-115 | no more options than records, and never more than nine |
| ResolutionKeys.ResolutionKeyInjective | server.js:86 | two records share a key iff they have the same width and height |
| ResolutionKeys.AllowedKeyRow | server.js:70-79 | an allowed key fixes the record's positive width and height to that row's and what `getQualityLabel` gives its height; the unused ladder disagrees with the table only for 144 ("144p" rather than "144p (SD)") |
| ResolutionKeys.VideoAspectRatio | server.js:95 | every offered video option has a ratio other than "N/A": the reduced `p:q` of its dimensions, with `p:q == w:h` and `p`, `q` coprime |
| ResolutionKeys.WideVgaRatio | server.js:75 | the 480p row, 854x480, is reported as "427:240", not 16:9 |
| ResolutionKeys.NarrowVgaRatio | server.js:77 | the 240p row, 426x240, is reported as "71:40", not 16:9 |
| Ratio.Gcd | server.js:26 | Euclid's `b ? gcd(b, a % b) : a` divides both arguments when one is positive |
| Ratio.GcdGreatest | server.js:26 | every common divisor of the arguments divides the gcd |
| Ratio.ReducedCoprime | server.js:27-28 | width and height divided by their gcd are coprime |
| Ratio.AspectRatio | server.js:24-29 | the text is "N/A" iff width or height is falsy |
| Ratio.AspectRatioReduced | server.js:27-28 | for positive dimensions the text is `"{w/g}:{h/g}"`, both parts positive, proportional to `w:h` and coprime |
| Ratio.FullHdIsSixteenByNine | server.js:24-28 | 1920x1080 gives "16:9" |
| Quality.QualityLabel | server.js:31-41 | "Unknown" for a falsy height; `"{h}p"` for a positive height below 240 |
| Quality.QualityLabelBand | server.js:33-39 | a positive height gets rung i's label iff it is at least that rung's minimum and below the one above |
| Quality.QualityLabelMonotone | server.js:33-39 | a greater height never gets a lower rung |
| Quality.QualityLabelOnLadder | server.js:33-39 | a height of 240 or more always lands on one of the seven rungs |
| Decimal.NatToString | server.js:86 | `${n}`: a non-empty digit string with a leading zero only for 0 |
| Decimal.NatToStringRoundTrip | server.js:86 | reading the digits back gives the number |
| Decimal.NatToStringInjective | server.js:86 | different numbers render differently |
| Decimal.Hundredths | server.js:97 | `toFixed(2)`'s rounding: the hundredths count is within half a hundredth of bytes / 2^20 |
| Decimal.FixedTwo | server.js:97 | `toFixed(2)`'s text: integer digits without a leading zero (other than a lone "0"), a point, two digits, denoting exactly the hundredths count |
| Decimal.Megabytes | server.js:97 | `(bytes / 2^20).toFixed(2)`: the `FixedTwo` text of the nearest hundredths count `Hundredths(bytes)` |
| Scenarios.DuplicateThenOther | server.js:85-101 | a later record with an already offered key, and a record that is neither mp4 nor mp3, add nothing |
| Scenarios.DuplicateResolutionFirstWins | server.js:85-101 | records 137 and 138, both 1920x1080 mp4, plus an m4a record, give exactly one option: itag "137", "1080p (HD)", "1920x1080", "16:9", mp4, `Exact(10485760)` |
| Scenarios.FullHd | server.js:86 | a 1920x1080 record has key "1920x1080" and ratio "16:9" |
| Scenarios.ExactSizeText | server.js:97 | 1048576 exact bytes render as "1.00 MB" |
| Scenarios.ApproxSizeText | server.js:98 | 1572864 approximate bytes render as "~1.50 MB" |
| VideoInfo.Title | server.js:118 | the title if truthy, otherwise "Untitled"; never empty |
| VideoInfo.LastThumbnailUrl | server.js:119 | `thumbnails?.slice(-1)[0]?.url`: the url of the last entry when the list is present and non-empty, nothing otherwise |
| VideoInfo.ThumbnailUrl | server.js:119 | a truthy `thumbnail` wins; else the last entry's url if truthy; else "" |
| VideoInfo.ThumbnailProvided | server.js:119 | the thumbnail is "", the given `thumbnail`, or the url of one of the `thumbnails` entries |
| VideoInfo.Duration | server.js:120 | `duration_string` if truthy, otherwise "" |
| VideoInfo.BuildSummary | server.js:85-122 | `Err(ParseFailure)` iff the parsed object has no `formats` list; otherwise the summary with the three defaults and `Normalize(formats)` |
| VideoInfo.VideoInfoUrl | server.js:46-51 | the request is accepted iff `url` is truthy; otherwise the "URL is required" error |
| VideoInfo.DownloadRequest | server.js:144-150 | the request is accepted iff both `url` and `itag` are truthy; otherwise the error listing `["url", "itag"]` |

## Left out

- Express setup, CORS, static files and the startup messages (server.js lines 1-20 and 183-190) are framework plumbing.
- Spawning `yt-dlp` and collecting its stdout, stderr and exit code (lines 53-66) are an external process. `BuildSummary` starts from the already parsed object.
- `JSON.parse` (line 69) is a library call. Its result is given as the `Info` datatype.
- A JSON value of the wrong type is not modelled: a non-numeric width, a non-string `ext` or `format_id`, a non-list `formats`, or a query parameter that Express parses into an array or object (`?url=a&url=b`); such a parameter is truthy, so the accept/reject decision is the same. Absent or null dimensions are modelled. They all render as `null`. A property that is missing rather than null renders as `undefined` in JavaScript, but both fail the table lookup alike.
- The `/download` relay is streaming I/O: `spawn`, the headers, `stdout.pipe(res)` and the exit logging (lines 152-180). Only its parameter check is modelled.
- The process-level exception handlers (lines 9-16) and the shaping of the 500 responses (lines 131-137) are left out.
- Decimal.NatToString, Formats.ResolutionKey, Ratio.AspectRatio, Quality.QualityLabel: numbers are unbounded integers here, while JavaScript numbers are doubles; `JSON.parse` rounds dimensions of 2^53 and more, and `${n}` prints 10^21 and more in exponent form. Only the eight table dimensions ever reach the aspect ratio, so the selection loop cannot observe the difference.
- Decimal.Hundredths: models `toFixed(2)` of `bytes / 2^20` as exact decimal rounding. That agrees with JavaScript's doubles only while bytes < 2^53.
- Formats.SizeText: the "N/A" branch of the size text cannot be reached from the loop, because both filters require a size. The model keeps that branch but proves nothing about it beyond `FormatProperties.OptionFields` (size never `SizeNA`).


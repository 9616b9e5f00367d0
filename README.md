# yt-dlp backend: a Dafny model of its request handling

The backend is a small Express server (index.js) that puts two HTTP endpoints in
front of the external `yt-dlp` downloader:

- `GET /search?q=...` checks the query, runs a ten-result search with a
  `%(id)s|%(title)s|%(duration_string)s|%(thumbnail)s` print template, and
  turns the tool's standard output into a JSON list of `{id, title, duration,
  thumbnail}` records. Lines without an id or a title are dropped.
- `GET /download?id=...&type=mp3|mp4` checks the parameters and the id format.
  It serves `<id>.<type>` from the server directory when the file is already
  there. Otherwise it calls the downloader with type-specific options and
  checks that the file now exists. On success it streams the file and, once
  streaming succeeded, deletes it ten seconds later. On failure it removes
  any partial file and answers 500.

A helper script, get-cookies.js, prints a `Cookie` header built from a
name-to-value map as `name=value` entries joined with `"; "`.

The model has six modules:

- `Wrappers`: `Option` stands for a JavaScript value that may be `undefined`,
  `Result` for a check that yields an error message.
- `JsText`: the JavaScript string operations the code relies on, stated
  exactly:
  - `trim` with the full ECMAScript white-space set;
  - `split` on a string separator, and `join`;
  - `.length` in UTF-16 code units.

  It also proves the round trips between `split` and `join`.
- `Validators`: `validateVideoId` and `validateQuery`.
- `SearchOutput`: the parser of the search output.
- `Handlers`: the two handlers, as methods of a class `Backend`. The class
  holds three fields:
  - the set of files in the server directory;
  - a log of every downloader invocation;
  - the queue of deletions scheduled after successful streams.

  What the downloader does is an input to each method: for a search, whether
  it threw or what it printed; for a download, whether it failed and left a
  partial file, or returned and created the file. Whether an unlink and the
  streaming succeed are inputs too.
- `CookieHeader`: the cookie header expression of get-cookies.js.

Only what index.js and get-cookies.js do is modelled. Rate limiting, a choice
of download strategies, error classification and a cookie jar appear in
neither file, so they are not part of the model.

Two behaviours of the code as written are worth knowing. The first is
modelled as written; the second lies outside the model:

- A video title that itself contains `|` is cut at the bar. The rest of the
  title becomes the duration, and every later field shifts by one
  (`SearchOutput.ExampleTitleWithBarShifts`).
- A repeated `q` parameter arrives as an array, and `query.trim` then throws
  outside the handler's `try` (index.js:18, 24). The model takes every
  parameter to be a string or absent, and says so under "Left out".

## Model

| member | source | states |
|---|---|---|
| JsText.IsJsSpace | index.js:18 | The characters `trim` removes. Among ASCII characters they are exactly space, tab, line feed, vertical tab, form feed and carriage return, and none lies beyond U+FEFF. |
| JsText.Trim | index.js:18 | `trim` returns a contiguous slice of its input. Everything before and after the slice is white space, and the result neither starts nor ends with white space. It is empty exactly when the input is all white space. |
| JsText.TrimPadded | index.js:18 | Trimming white space that surrounds a string whose ends are not white space gives back exactly that string. |
| JsText.LeadingSpace | index.js:34 | The run of white space at the start of a string: every character before the returned index is white space, and the one at the index is not. |
| JsText.TrailingSpace | index.js:34 | The same for the run of white space at the end of a string. |
| JsText.Utf16Length | index.js:18 | `.length` counts UTF-16 code units. The count lies between the number of characters and twice that number, and equals the number of characters exactly when every character is in the Basic Multilingual Plane. |
| JsText.Find | index.js:34-36 | Returns the first occurrence of a non-empty separator; there is no earlier one. It returns none exactly when the separator does not occur. |
| JsText.Split | index.js:34-36 | `split` yields at least one piece, and no piece contains the separator. |
| JsText.JoinSplit | index.js:34-36 | Joining the pieces of a split with the same separator gives back the original string. |
| JsText.Join | get-cookies.js:70 | `join` of no pieces is empty, and any other join begins with its first piece. |
| JsText.JoinAppend | get-cookies.js:68-70 | Joining one more piece appends the separator and that piece. |
| JsText.SplitJoin | index.js:36 | Splitting a join gives back the pieces, provided the separator cannot start inside a piece and run on into the next separator. |
| JsText.NoContainsCleanly | index.js:36 | A piece that does not contain the separator meets that condition when the separator's first character does not recur in it. This holds for `\|` and for `"; "`. |
| JsText.SplitPiecesAvoid | index.js:34-36 | No piece of a split contains a string that the input does not contain. |
| JsText.ContainsChar | index.js:36 | A one-character separator occurs in a string exactly when the character is a member of it. |
| Validators.IsIdChar | index.js:14 | The class `[a-zA-Z0-9_-]`. Every member is ASCII, none is `/`, `\`, `.` or `:`, and none is white space. |
| Validators.MatchesIdClass | index.js:14 | The anchored regular expression `^[a-zA-Z0-9_-]{n}$` matches exactly the strings of length n whose every character is in the class. |
| Validators.ValidateVideoId | index.js:13-15 | An id is valid exactly when it has 11 characters, each an ASCII letter, a digit, `_` or `-`. |
| Validators.VideoIdRejects | index.js:14 | A string of the wrong length, or one holding a space or a `/`, is never a valid id. |
| Validators.VideoIdIsPathSafe | index.js:55-61 | A valid id contains no `/`, `\`, `.` or `:`. |
| Validators.ValidateQuery | index.js:17-19 | A query is accepted exactly when it is present, is not all white space, and its trimmed text is at most 100 UTF-16 code units long. |
| Validators.QueryRejectsBlank | index.js:17-19 | A missing, empty or white-space-only query is rejected. |
| Validators.QueryRejectsLong | index.js:18 | A query whose trimmed text has more than 100 characters is rejected. |
| Validators.QueryIgnoresPadding | index.js:18 | A query is judged only by its text without the surrounding white space. |
| Validators.QueryAcceptsShort | index.js:18 | Between 1 and 100 characters from the Basic Multilingual Plane, with no white space at either end, is accepted. |
| Validators.QueryLimitCountsCodeUnits | index.js:18 | 51 characters from outside the Basic Multilingual Plane count as 102 code units and are rejected. |
| Validators.Utf16LengthAstral | index.js:18 | A string made only of characters outside the Basic Multilingual Plane has twice as many code units as characters. |
| SearchOutput.Field | index.js:36 | Array destructuring takes piece k when it exists and `undefined` otherwise. |
| SearchOutput.ParseLine | index.js:36-37 | Neither the id nor the title of a line's record contains `\|`. The title is missing exactly when the line has no `\|`. A later field is present only if every earlier field is. |
| SearchOutput.Keep | index.js:38 | The filter `result.id && result.title` keeps a record exactly when both fields are truthy in JavaScript: present and non-empty. |
| SearchOutput.ParseLines | index.js:35-38 | The parse keeps at most one record per line. Every kept record has a non-empty id and a non-empty title, and neither contains `\|`. |
| SearchOutput.ParseSearchOutput | index.js:34-38 | The search output yields at most one record per line of the trimmed output, and every record passes the filter. |
| SearchOutput.KeptIndices | index.js:38 | An independent description of the filter: strictly increasing indices of lines whose record passes it. |
| SearchOutput.KeptIndicesComplete | index.js:38 | Every line whose record passes the filter has its index among them. |
| SearchOutput.ParseLinesAreKeptLines | index.js:35-38 | The records of the parse are exactly the records of the kept lines, in their order. |
| SearchOutput.ParseSuffixIsKept | index.js:35-38 | The same, for every suffix of the lines. |
| SearchOutput.ResultsStayOnOneLine | index.js:34-38 | No id or title of a result contains a line feed. |
| SearchOutput.ParseJoinedLine | index.js:31-37 | A line made of `\|`-free fields joined with `\|` parses back to its first four fields, with `undefined` for the missing ones. |
| SearchOutput.ParseFullLine | index.js:31-37 | The line the print template writes for a result with four `\|`-free fields parses back to exactly those fields. |
| SearchOutput.ParseLineWithExtraField | index.js:36-37 | A line with five fields: the second and third become the title and the duration, the fourth becomes the thumbnail, and the fifth is dropped. |
| SearchOutput.ExampleLineParses | index.js:31-37 | `abc12345678\|My Title\|3:45\|http://thumb` parses to its four fields. |
| SearchOutput.ExampleTitleWithBarShifts | index.js:36-37 | The title `Live \| Part 2` is cut at its bar, and the rest of it becomes the duration. |
| SearchOutput.ExampleEmptyTitleDropped | index.js:38 | A line with an empty title is dropped. |
| SearchOutput.LineWithoutBarDropped | index.js:36-38 | A line without `\|` has no title and is dropped. |
| SearchOutput.BlankOutputYieldsNothing | index.js:34-38 | Empty or all-white-space output yields an empty list, not an error. |
| Handlers.Status | index.js:25 | The status code is 400 exactly for the bad-request replies and 500 exactly for the server errors. Results and files are sent with 200. |
| Handlers.ParseMediaType | index.js:50 | Only `mp3` and `mp4` are known types, and each maps to its own media type. |
| Handlers.Extension | index.js:59 | The extension is the type itself: three characters that parse back to the same media type. |
| Handlers.ContentType | index.js:64 | `audio/mpeg` exactly for mp3 and `video/mp4` exactly for mp4. |
| Handlers.FileName | index.js:59-60 | The file name is the id followed by `.` and the extension, so it is four characters longer than the id. |
| Handlers.Disposition | index.js:66 | The Content-Disposition header is `attachment; filename=` followed by the file name, verbatim, between double quotes. |
| Handlers.OptionsFor | index.js:72-81 | The option object names the file as output, and sets audio extraction to mp3 for mp3 or the mp4 format selector for mp4, never both. |
| Handlers.CheckDownload | index.js:49-57 | "Missing or invalid parameters" exactly when the id is missing or empty or the type is unknown. Otherwise "Invalid video ID format" exactly when the id fails the format check. A request is accepted exactly when neither error applies. An accepted request carries that valid id, and its type is the type asked for. |
| Handlers.FileNameInjective | index.js:60 | Two different requests never map to the same file name, so a cached file is always the one asked for. |
| Handlers.FileNameStaysInDirectory | index.js:55-61 | The file name of an accepted request has no path separator and does not start with a dot. |
| Handlers.Backend.constructor | index.js:1-10 | A fresh server starts with the given directory, no downloader calls and no scheduled deletions. |
| Handlers.Backend.Search | index.js:22-45 | An invalid query gets 400 with its message and does not invoke the downloader. A valid query invokes it once, with `ytsearch10:` and the untrimmed query, flat playlist on and the print template. The reply is "Search failed" with 500 when the downloader throws, and the parsed output otherwise. The status is 400 exactly for an invalid query and 500 exactly when the downloader threw. |
| Handlers.Backend.Download | index.js:48-123 | The status is 400 exactly for a rejected request, and 500 exactly when a download was needed and the file did not appear. A rejected request changes nothing and gets 400 with its message. Only the request's own file can appear or disappear. Cache hit: the file is served with its content type and attachment header, with no download and no deletion. Cache miss: exactly one downloader call to the watch URL, with `extractAudio` and `audioFormat: mp3` for mp3 or the mp4 format selector for mp4, never both. When the file then exists it is served, and its deletion is queued exactly when streaming reported no error. Otherwise the reply is 500 "Download failed", and the file remains only if a partial file was left and removing it failed. |
| Handlers.Backend.Fetch | index.js:72-123 | The cache-miss path. It makes exactly one downloader call, to the watch URL with the options for the type. When the file then exists it is served, and its deletion is queued exactly when streaming reported no error. Otherwise the reply is 500 "Download failed", and the file remains only if a partial file was left and removing it failed. Other files are untouched. |
| Handlers.Backend.FireDeletion | index.js:101-107 | The oldest scheduled deletion fires and leaves the queue. Its file leaves the directory unless the unlink fails. |
| CookieHeader.Entry | get-cookies.js:69 | An entry is the name, then `=`, then the value, each inserted verbatim. |
| CookieHeader.CookieString | get-cookies.js:68-70 | The header is empty exactly when there are no cookies. |
| CookieHeader.CookieStringSingle | get-cookies.js:69 | A single cookie is written `name=value`, with no separator. |
| CookieHeader.CookieStringAppend | get-cookies.js:68-70 | Adding a cookie appends `"; "` and its `name=value` entry. |
| CookieHeader.EntryHasNoSeparator | get-cookies.js:69 | An entry contains no `"; "` when its name and value contain none. |
| CookieHeader.CookieStringSplits | get-cookies.js:68-70 | Splitting the header on `"; "` gives back one `name=value` entry per cookie, in insertion order, provided no name or value contains `"; "`. |

## Left out

- Express wiring is not part of this model: routing, CORS, `/health`, the 404 and global error handlers, and `listen`. Neither core handler depends on them.
- The downloader process: it is an external program. Only its observable outcome is modelled, as an input to each handler.
- Real file-system and streaming I/O: `path.join`, `existsSync`, `unlink`, and the headers `res.download` sets itself. The directory is a set of names, and the success of unlinking and streaming are inputs.
- Handlers.Backend.FireDeletion: the ten-second delay is not modelled, because there is no clock. Deletions are a queue that fires in order.
- All `console` logging, because it does not change a reply or a file.
- Concurrency between requests is not modelled, because each handler call runs to completion in the model. A deletion firing while the same file is requested again is represented only by the order of the method calls.
- Query values that are not strings are not modelled, because each query parameter is an optional string. This covers the arrays that repeated parameters produce.
- CookieHeader.CookieString: takes the cookie map as a sequence of entries. It does not model how an object literal collapses duplicate keys, or how it reorders integer-like keys.
- The header for the script's sample map (get-cookies.js:56-66) is not computed. The model states the header of every map through `CookieStringSingle`, `CookieStringAppend` and `CookieStringSplits` instead.
- The rest of get-cookies.js prints instructions and the resulting header (get-cookies.js:72-73). Printing is I/O, so it is not modelled.
- The downloader's `output: filename` and the path the handler checks are assumed to be the same file. The tool resolves `output` against the process's working directory (index.js:73, 84). The handler checks, serves and removes `path.join(__dirname, filename)` (index.js:61, 63, 87, 114). When the server is started from another directory, every cache miss answers 500 and the downloaded file stays behind unserved. The model assumes the process runs in its own directory.


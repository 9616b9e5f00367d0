/** The `/search` and `/download` handlers of index.js. The server directory
    is a set of file names, each invocation of the external downloader is
    appended to a log (so that "the tool is not invoked" can be stated), and
    each deletion the handler schedules after a successful stream is queued. */
module Handlers {
  import opened Wrappers
  import opened JsText
  import opened Validators
  import opened SearchOutput

  // ---------------------------------------------------------------------------
  // Values the handlers compute
  // ---------------------------------------------------------------------------

  datatype MediaType = Mp3 | Mp4

  /** A download request that passed both checks. */
  datatype DownloadRequest = DownloadRequest(id: string, kind: MediaType)

  /** The option object handed to the downloader; an option the handler does
      not set is `None`. */
  datatype DownloadOptions = DownloadOptions(
    output: string,
    extractAudio: Option<bool>,
    audioFormat: Option<string>,
    format: Option<string>)

  /** One invocation of the external tool. */
  datatype ToolCall =
    | SearchCall(target: string, flatPlaylist: bool, printTemplate: string)
    | DownloadCall(url: string, options: DownloadOptions)

  /** What the tool did when asked to search: it threw, or printed `stdout`. */
  datatype SearchOutcome = SearchThrew | Printed(stdout: string)

  /** What the tool did when asked to download: it threw (possibly leaving a
      partial file behind), or it returned (having created the file or not). */
  datatype DownloadOutcome = Failed(leftPartial: bool) | Succeeded(createdFile: bool)

  /** The HTTP reply. `Serve` streams the file `path` with the two headers;
      `scheduleDelete` says whether the handler queued its deletion. */
  datatype Reply =
    | BadRequest(error: string)
    | Found(results: seq<SearchResult>)
    | Serve(path: string, contentType: string, disposition: string, scheduleDelete: bool)
    | ServerError(error: string)

  const MissingParameters := "Missing or invalid parameters"
  const InvalidIdFormat := "Invalid video ID format"
  const DownloadFailed := "Download failed"
  const InvalidQuery := "Invalid or missing query (max 100 characters)"
  const SearchFailed := "Search failed"
  const SearchPrefix := "ytsearch10:"
  const PrintTemplate := "%(id)s|%(title)s|%(duration_string)s|%(thumbnail)s"
  const WatchPrefix := "https://www.youtube.com/watch?v="
  const Mp4Format := "bestvideo[ext=mp4]+bestaudio[ext=m4a]/mp4"

  /** The status code `res.status(...)` sets; a JSON list or a file is 200. */
  function Status(r: Reply): (code: nat)
    ensures code == 400 <==> r.BadRequest?
    ensures code == 500 <==> r.ServerError?
    ensures code == 200 <==> r.Found? || r.Serve?
  {
    match r
    case BadRequest(_) => 400
    case ServerError(_) => 500
    case _ => 200
  }

  /** `['mp3', 'mp4'].includes(type)`, and which of the two it is. */
  function ParseMediaType(t: Option<string>): (m: Option<MediaType>)
    ensures m == Some(Mp3) <==> t == Some("mp3")
    ensures m == Some(Mp4) <==> t == Some("mp4")
  {
    if t == Some("mp3") then Some(Mp3)
    else if t == Some("mp4") then Some(Mp4)
    else None
  }

  /** `type === 'mp3' ? 'mp3' : 'mp4'`: the extension is the type itself. */
  function Extension(kind: MediaType): (e: string)
    ensures |e| == 3
    ensures ParseMediaType(Some(e)) == Some(kind)
  {
    match kind
    case Mp3 => "mp3"
    case Mp4 => "mp4"
  }

  /** `type === 'mp3' ? 'audio/mpeg' : 'video/mp4'`. */
  function ContentType(kind: MediaType): (ct: string)
    ensures ct == "audio/mpeg" <==> kind == Mp3
    ensures ct == "video/mp4" <==> kind == Mp4
  {
    match kind
    case Mp3 => "audio/mpeg"
    case Mp4 => "video/mp4"
  }

  /** The file name `${id}.${ext}`, used for the path, the downloader's
      `output` option and the Content-Disposition header alike. */
  function FileName(req: DownloadRequest): (name: string)
    ensures |name| == |req.id| + 4
    ensures name[..|req.id|] == req.id && name[|req.id|..] == "." + Extension(req.kind)
  {
    req.id + "." + Extension(req.kind)
  }

  /** `attachment; filename="${filename}"`: the name appears verbatim
      between the quotes that end the header. */
  function Disposition(name: string): (d: string)
    ensures |d| == |name| + 23
    ensures d[..21] == "attachment; filename=" && d[21] == '"' && d[|d| - 1] == '"'
    ensures d[22..|d| - 1] == name
  {
    var prefix := "attachment; filename=\"";
    assert |prefix| == 22 && prefix[..21] == "attachment; filename=";
    var d := prefix + name + "\"";
    assert d[..21] == prefix[..21] && d[22..|d| - 1] == name;
    d
  }

  /** The two checks of the download handler, in order: parameters present
      and type known, then the id format. */
  function CheckDownload(id: Option<string>, t: Option<string>): (r: Result<DownloadRequest>)
    ensures r == Err(MissingParameters) <==> id.None? || id.value == "" || ParseMediaType(t).None?
    ensures r == Err(InvalidIdFormat) <==>
              id.Some? && id.value != "" && ParseMediaType(t).Some? && !ValidateVideoId(id.value)
    ensures r.Ok? <==> id.Some? && id.value != "" && ParseMediaType(t).Some? && ValidateVideoId(id.value)
    ensures r.Ok? ==> Some(r.value.id) == id && ValidateVideoId(r.value.id)
                      && t == Some(Extension(r.value.kind))
  {
    if id.None? || id.value == "" || ParseMediaType(t).None? then Err(MissingParameters)
    else if !ValidateVideoId(id.value) then Err(InvalidIdFormat)
    else Ok(DownloadRequest(id.value, ParseMediaType(t).value))
  }

  /** The options the handler builds for a request: the output file name, and
      audio extraction to mp3 for `mp3` or the mp4 format selector for `mp4`,
      never both. */
  predicate OptionsFit(req: DownloadRequest, o: DownloadOptions)
  {
    o.output == FileName(req)
    && (req.kind == Mp3 ==>
          o.extractAudio == Some(true) && o.audioFormat == Some("mp3") && o.format == None)
    && (req.kind == Mp4 ==>
          o.format == Some(Mp4Format) && o.extractAudio == None && o.audioFormat == None)
  }

  /** The option object as the handler fills it in: the output name first,
      then the fields for the requested type. */
  function OptionsFor(req: DownloadRequest): (o: DownloadOptions)
    ensures OptionsFit(req, o)
  {
    var base := DownloadOptions(FileName(req), None, None, None);
    if req.kind == Mp3 then base.(extractAudio := Some(true)).(audioFormat := Some("mp3"))
    else base.(format := Some(Mp4Format))
  }

  /** Different requests never share a file, so a cached file is always the
      one the request asks for. */
  lemma FileNameInjective(a: DownloadRequest, b: DownloadRequest)
    requires FileName(a) == FileName(b)
    ensures a == b
  {
    var n := FileName(a);
    assert a.id == n[..|n| - 4] == b.id;
    assert Extension(a.kind) == n[|n| - 3..] == Extension(b.kind);
    assert ParseMediaType(Some(Extension(a.kind))) == Some(a.kind);
  }

  /** The file of a checked request stays inside the server directory: no
      separator, and it does not start with a dot. */
  lemma FileNameStaysInDirectory(id: Option<string>, t: Option<string>)
    requires CheckDownload(id, t).Ok?
    ensures var name := FileName(CheckDownload(id, t).value);
            '/' !in name && '\\' !in name && name[0] != '.'
  {
    var req := CheckDownload(id, t).value;
    var name := FileName(req);
    VideoIdIsPathSafe(req.id);
    assert name == req.id + "." + Extension(req.kind);
    assert forall k :: 0 <= k < 11 ==> name[k] == req.id[k];
  }

  // ---------------------------------------------------------------------------
  // The server
  // ---------------------------------------------------------------------------

  class Backend {
    /** Names of the files in the server's directory. */
    var files: set<string>
    /** Every invocation of the external tool, oldest first. */
    var calls: seq<ToolCall>
    /** Files whose deletion a served download has scheduled, oldest first. */
    var scheduled: seq<string>

    constructor (existing: set<string>)
      ensures files == existing && calls == [] && scheduled == []
    {
      files := existing;
      calls := [];
      scheduled := [];
    }

    /** GET /search?q=... */
    method Search(q: Option<string>, outcome: SearchOutcome) returns (reply: Reply)
      modifies this`calls
      ensures !ValidateQuery(q) ==> reply == BadRequest(InvalidQuery) && calls == old(calls)
      ensures ValidateQuery(q) ==>
                calls == old(calls) + [SearchCall(SearchPrefix + q.value, true, PrintTemplate)]
      ensures ValidateQuery(q) && outcome.SearchThrew? ==> reply == ServerError(SearchFailed)
      ensures ValidateQuery(q) && outcome.Printed? ==>
                reply == Found(ParseSearchOutput(outcome.stdout))
      ensures Status(reply) == 400 <==> !ValidateQuery(q)
      ensures Status(reply) == 500 <==> ValidateQuery(q) && outcome.SearchThrew?
    {
      if !ValidateQuery(q) {
        return BadRequest(InvalidQuery);
      }
      calls := calls + [SearchCall(SearchPrefix + q.value, true, PrintTemplate)];
      match outcome
      case SearchThrew =>
        reply := ServerError(SearchFailed);
      case Printed(stdout) =>
        reply := Found(ParseSearchOutput(stdout));
    }

    /** GET /download?id=...&type=... `outcome` is what the downloader does,
        `unlinkOk` whether removing a partial file succeeds, `streamOk`
        whether streaming the file to the client reports no error. */
    method Download(id: Option<string>, t: Option<string>, outcome: DownloadOutcome,
                    unlinkOk: bool, streamOk: bool) returns (reply: Reply)
      modifies this
      // 400 exactly for a rejected request, 500 exactly when a download was
      // needed and the file did not appear.
      ensures Status(reply) == 400 <==> CheckDownload(id, t).Err?
      ensures Status(reply) == 500 <==>
                CheckDownload(id, t).Ok? && FileName(CheckDownload(id, t).value) !in old(files)
                && outcome != Succeeded(true)
      // A rejected request changes nothing and invokes nothing.
      ensures CheckDownload(id, t).Err? ==>
                reply == BadRequest(CheckDownload(id, t).error)
                && files == old(files) && calls == old(calls) && scheduled == old(scheduled)
      ensures CheckDownload(id, t).Ok? ==>
                var req := CheckDownload(id, t).value;
                var name := FileName(req);
                // Only the request's own file can appear or disappear.
                files - {name} == old(files) - {name}
                // Cache hit: served as it is, no download, no deletion.
                && (name in old(files) ==>
                      reply == Serve(name, ContentType(req.kind), Disposition(name), false)
                      && files == old(files) && calls == old(calls) && scheduled == old(scheduled))
                // Cache miss: exactly one download call, with the options for the type.
                && (name !in old(files) ==>
                      |calls| == |old(calls)| + 1 && calls[..|old(calls)|] == old(calls)
                      && calls[|old(calls)|].DownloadCall?
                      && calls[|old(calls)|].url == WatchPrefix + req.id
                      && OptionsFit(req, calls[|old(calls)|].options))
                // The file appeared: it is served, and its deletion is scheduled
                // exactly when the stream reported no error.
                && (name !in old(files) && outcome == Succeeded(true) ==>
                      reply == Serve(name, ContentType(req.kind), Disposition(name), streamOk)
                      && name in files
                      && scheduled == old(scheduled) + (if streamOk then [name] else []))
                // Otherwise: 500, and the file is gone unless its removal failed.
                && (name !in old(files) && outcome != Succeeded(true) ==>
                      reply == ServerError(DownloadFailed) && scheduled == old(scheduled)
                      && (name in files <==> outcome == Failed(true) && !unlinkOk))
    {
      var check := CheckDownload(id, t);
      if check.Err? {
        return BadRequest(check.error);
      }
      var req := check.value;
      var name := FileName(req);
      if name in files {
        return Serve(name, ContentType(req.kind), Disposition(name), false);
      }

      reply := Fetch(req, outcome, unlinkOk, streamOk);
    }

    /** The cache-miss part of GET /download: invoke the downloader, check
        that the file now exists, then serve it or clean up and answer 500. */
    method Fetch(req: DownloadRequest, outcome: DownloadOutcome, unlinkOk: bool, streamOk: bool)
      returns (reply: Reply)
      requires FileName(req) !in files
      modifies this
      ensures var name := FileName(req);
              files - {name} == old(files) - {name}
              // Exactly one download call, with the options for the type.
              && calls == old(calls) + [DownloadCall(WatchPrefix + req.id, OptionsFor(req))]
              // The file appeared: it is served, and its deletion is scheduled
              // exactly when the stream reported no error.
              && (outcome == Succeeded(true) ==>
                    reply == Serve(name, ContentType(req.kind), Disposition(name), streamOk)
                    && name in files
                    && scheduled == old(scheduled) + (if streamOk then [name] else []))
              // Otherwise: 500, and the file is gone unless its removal failed.
              && (outcome != Succeeded(true) ==>
                    reply == ServerError(DownloadFailed) && scheduled == old(scheduled)
                    && (name in files <==> outcome == Failed(true) && !unlinkOk))
    {
      var name := FileName(req);
      calls := calls + [DownloadCall(WatchPrefix + req.id, OptionsFor(req))];

      var failed: bool;
      match outcome {
        case Failed(leftPartial) =>
          if leftPartial {
            files := files + {name};
          }
          failed := true;
        case Succeeded(createdFile) =>
          if createdFile {
            files := files + {name};
          }
          // The handler checks the directory rather than trusting the tool.
          failed := name !in files;
      }

      if failed {
        if name in files && unlinkOk {
          files := files - {name};
        }
        return ServerError(DownloadFailed);
      }
      if streamOk {
        scheduled := scheduled + [name];
      }
      reply := Serve(name, ContentType(req.kind), Disposition(name), streamOk);
    }

    /** The timer of the oldest scheduled deletion fires and unlinks the file;
        a failing unlink is only logged. */
    method FireDeletion(unlinkOk: bool)
      requires scheduled != []
      modifies this`files, this`scheduled
      ensures scheduled == old(scheduled[1..])
      ensures files == if unlinkOk then old(files) - {old(scheduled[0])} else old(files)
    {
      if unlinkOk {
        files := files - {scheduled[0]};
      }
      scheduled := scheduled[1..];
    }
  }
}

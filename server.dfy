/**
 * The two handlers of the Go server (main.go). Storage under `/tmp` is a map
 * from id to what was written there; the standard-library calls the GET
 * handler makes on stored headers (`mime.ParseMediaType`,
 * `mime.ExtensionsByType`) are parameters.
 */
module Server {
  import opened Common

  /** The request a POST stored: its two relevant headers and its body. */
  datatype StoredRequest = StoredRequest(disposition: string, contentType: string, body: seq<byte>)

  /**
   * A file under `/tmp`: a complete dump of the request, or one left behind
   * when dumping or writing failed after `os.Create`.
   */
  datatype Entry = Dumped(request: StoredRequest) | Truncated

  /** Which step of the POST handler fails, if any. */
  datatype PostFault = CreateFailed | DumpFailed | WriteFailed

  datatype Response =
    | JsonId(id: string)                                               // 200 {"id": id}
    | HttpError(code: nat)
    | Stream(contentType: string, disposition: string, body: seq<byte>) // 200 with the body

  const StatusNotFound := 404
  const StatusInternalError := 500
  const FallbackExt := ".data"

  /**
   * `strings.Split(rawid, ".")[0]`: the text before the first `.`, or all of
   * the parameter when it holds none.
   */
  function StoredId(raw: string): (id: string)
    ensures '.' !in id && id <= raw
    ensures |id| < |raw| ==> raw[|id|] == '.'
  {
    PrefixBefore(raw, '.')
  }

  /** A dot-free id and the same id followed by `.` and anything address the same file. */
  lemma SameStoredFile(id: string, rest: string)
    requires '.' !in id
    ensures StoredId(id) == id
    ensures StoredId(id + "." + rest) == id
  {
    PrefixBeforeUnique(id, '.', id);
    PrefixBeforeStops(id, '.', rest);
  }

  /** The `filename` parameter `mime.ParseMediaType` returned, `""` when it failed or has none. */
  function FilenameParam(params: Option<map<string, string>>): string {
    if params.Some? && "filename" in params.value then params.value["filename"] else ""
  }

  /**
   * The name the GET handler announces (main.go lines 65-85): a non-empty
   * stored `filename` parameter as it is, otherwise the id followed by the
   * first extension registered for the stored Content-Type, otherwise the
   * id followed by `.data`.
   */
  function DownloadName(id: string, params: Option<map<string, string>>, exts: Option<seq<string>>): string {
    var filename := FilenameParam(params);
    if filename != "" then filename
    else id + (if exts.Some? && |exts.value| > 0 then exts.value[0] else FallbackExt)
  }

  lemma DownloadNameChoice(id: string, params: Option<map<string, string>>, exts: Option<seq<string>>)
    ensures FilenameParam(params) != "" ==> DownloadName(id, params, exts) == params.value["filename"]
    ensures FilenameParam(params) == "" && exts.Some? && exts.value != [] ==>
              DownloadName(id, params, exts) == id + exts.value[0]
    ensures FilenameParam(params) == "" && (exts.None? || exts.value == []) ==>
              DownloadName(id, params, exts) == id + ".data"
    ensures FilenameParam(params) == "" ==> id <= DownloadName(id, params, exts)
  {
  }

  /** The response header, the name unquoted. */
  function ContentDispositionHeader(filename: string): string {
    "attachment; filename=" + filename
  }

  /** What the POST handler leaves under `/tmp` for the fresh id. */
  function Posted(files: map<string, Entry>, id: string, request: StoredRequest, fault: Option<PostFault>)
    : map<string, Entry>
  {
    match fault
    case None => files[id := Dumped(request)]
    case Some(CreateFailed) => files
    case Some(_) => files[id := Truncated]
  }

  /**
   * The GET handler's answer for the path parameter `raw`. An empty id names
   * `/tmp` itself, which opens but does not read as a request; `openFails`
   * is an error of `os.Open` other than a missing file.
   */
  function Retrieve(files: map<string, Entry>, raw: string, openFails: bool,
                    parseMediaType: string -> Option<map<string, string>>,
                    extensionsByType: string -> Option<seq<string>>): Response
  {
    var id := StoredId(raw);
    if id == "" then HttpError(StatusInternalError)
    else if id !in files then HttpError(StatusNotFound)
    else if openFails || files[id].Truncated? then HttpError(StatusInternalError)
    else
      var req := files[id].request;
      var name := DownloadName(id, parseMediaType(req.disposition), extensionsByType(req.contentType));
      Stream(req.contentType, ContentDispositionHeader(name), req.body)
  }

  /**
   * A missing id is 404; any other failure is 500; a stored request is
   * streamed with its own Content-Type and body.
   */
  lemma RetrieveCases(files: map<string, Entry>, raw: string, openFails: bool,
                      parseMediaType: string -> Option<map<string, string>>,
                      extensionsByType: string -> Option<seq<string>>)
    ensures var r := Retrieve(files, raw, openFails, parseMediaType, extensionsByType);
      var id := StoredId(raw);
      && (r == HttpError(StatusNotFound) <==> id != "" && id !in files)
      && (r.HttpError? <==> id == "" || id !in files || openFails || files[id].Truncated?)
      && (r.Stream? ==> r.body == files[id].request.body && r.contentType == files[id].request.contentType)
  {
  }

  /**
   * After a successful POST under a fresh id, a GET of that id, alone or with
   * any `.` suffix, streams the stored body under the stored Content-Type.
   */
  lemma PostThenGet(files: map<string, Entry>, id: string, request: StoredRequest, suffix: string,
                    parseMediaType: string -> Option<map<string, string>>,
                    extensionsByType: string -> Option<seq<string>>)
    requires id != "" && '.' !in id
    requires suffix == "" || suffix[0] == '.'
    ensures Retrieve(Posted(files, id, request, None), id + suffix, false, parseMediaType, extensionsByType)
            == Stream(request.contentType,
                      ContentDispositionHeader(DownloadName(id, parseMediaType(request.disposition),
                                                            extensionsByType(request.contentType))),
                      request.body)
  {
    if suffix == "" {
      assert id + suffix == id;
      SameStoredFile(id, "");
    } else {
      assert id + suffix == id + "." + suffix[1..];
      SameStoredFile(id, suffix[1..]);
    }
  }

  /** A POST that failed is never served: its id gives an error. */
  lemma FailedPostNotServed(files: map<string, Entry>, id: string, request: StoredRequest, fault: PostFault,
                            openFails: bool,
                            parseMediaType: string -> Option<map<string, string>>,
                            extensionsByType: string -> Option<seq<string>>)
    requires '.' !in id && id !in files
    ensures Retrieve(Posted(files, id, request, Some(fault)), id, openFails, parseMediaType, extensionsByType).HttpError?
  {
    SameStoredFile(id, "");
  }

  /** A POST touches no other id. */
  lemma PostKeepsOthers(files: map<string, Entry>, id: string, request: StoredRequest,
                        fault: Option<PostFault>, other: string)
    requires other != id
    ensures other in Posted(files, id, request, fault) <==> other in files
    ensures other in files ==> Posted(files, id, request, fault)[other] == files[other]
  {
  }

  /** The contents of `/tmp` as far as the handlers see it. */
  class Store {
    var files: map<string, Entry>

    constructor ()
      ensures files == map[]
    {
      files := map[];
    }

    /**
     * The POST handler with `id` the fresh `xid.New()` value. Responds
     * `{"id": id}` on success and 500 when a step fails.
     */
    method Post(id: string, request: StoredRequest, fault: Option<PostFault>) returns (resp: Response)
      requires id !in files
      modifies this
      ensures files == Posted(old(files), id, request, fault)
      ensures resp == if fault.None? then JsonId(id) else HttpError(StatusInternalError)
    {
      if fault == Some(CreateFailed) {
        return HttpError(StatusInternalError);
      }
      if fault.Some? {
        files := files[id := Truncated];
        return HttpError(StatusInternalError);
      }
      files := files[id := Dumped(request)];
      resp := JsonId(id);
    }

    /** The GET handler; it reads the store and changes nothing. */
    method Get(raw: string, openFails: bool,
               parseMediaType: string -> Option<map<string, string>>,
               extensionsByType: string -> Option<seq<string>>) returns (resp: Response)
      ensures resp == Retrieve(files, raw, openFails, parseMediaType, extensionsByType)
    {
      var id := StoredId(raw);
      if id == "" {
        return HttpError(StatusInternalError);
      }
      if id !in files {
        return HttpError(StatusNotFound);
      }
      if openFails || files[id].Truncated? {
        return HttpError(StatusInternalError);
      }
      var req := files[id].request;
      var filename := FilenameParam(parseMediaType(req.disposition));
      if filename == "" {
        var ext := FallbackExt;
        var exts := extensionsByType(req.contentType);
        if exts.Some? && |exts.value| > 0 {
          ext := exts.value[0];
        }
        filename := id + ext;
      }
      resp := Stream(req.contentType, ContentDispositionHeader(filename), req.body);
    }
  }
}

/**
 * Properties that span the client (web/src/App.tsx) and the server
 * (main.go): the share link addresses the stored upload, and a file name
 * survives percent-encoding by the client, the server's unquoted echo, and
 * the client's regex and decoding.
 */
module RoundTrips {
  import opened Common
  import opened UriComponent
  import opened AppHelpers
  import opened AppController
  import opened Server

  /** What the server stores for the client's upload XHR of `file`. */
  function UploadedRequest(file: File): StoredRequest
    requires IsAscii(file.name)
  {
    StoredRequest(UploadDisposition(file.name), file.mimeType, file.content)
  }

  /**
   * The share link is the route `/deaddrop/` followed by a parameter from
   * which the server recovers exactly the pickup key, provided the key
   * holds no `.` (xid ids do not).
   */
  lemma ShareLinkRedeemsKey(origin: string, key: string, ext: string)
    requires '.' !in key
    ensures ShareLink(origin, key, ext) == origin + "/deaddrop/" + (key + "." + ext)
    ensures StoredId(key + "." + ext) == key
  {
    SameStoredFile(key, ext);
  }

  /** The client's own quoted upload header yields the encoded name to the download regex. */
  lemma UploadHeaderCapture(name: string)
    requires IsAscii(name) && name != []
    ensures FilenameCapture(UploadDisposition(name)) == Some(EncodeUriComponent(name))
  {
    var enc := EncodeUriComponent(name);
    assert UploadDisposition(name) == AttachmentPrefix + FilenameKey + ("\"" + enc + "\"");
    CaptureAfter(AttachmentPrefix, true, enc);
  }

  /**
   * A non-empty ASCII file name, percent-encoded by the client and echoed
   * unquoted by the server, is read back by the client as itself.
   */
  lemma FilenameSurvivesTransfer(name: string)
    requires IsAscii(name) && name != []
    ensures ResolveFilename(Some(ContentDispositionHeader(EncodeUriComponent(name)))) == Some(name)
  {
    var enc := EncodeUriComponent(name);
    assert ContentDispositionHeader(enc) == AttachmentPrefix + FilenameKey + enc;
    ResolveAttachment(false, enc);
    DecodeEncode(name);
  }

  /**
   * Upload, share, redeem: a file uploaded under the fresh id `id`, fetched
   * through the path parameter of its share link, is saved by the client
   * under its own name with its own bytes. `parseMediaType` is assumed to
   * unquote the client's header, as Go's `mime.ParseMediaType` does.
   */
  lemma UploadShareRedeem(files: map<string, Entry>, id: string, file: File, ext: string,
                          parseMediaType: string -> Option<map<string, string>>,
                          extensionsByType: string -> Option<seq<string>>)
    requires id != "" && '.' !in id
    requires IsAscii(file.name) && file.name != []
    requires parseMediaType(UploadDisposition(file.name)) ==
             Some(map["filename" := EncodeUriComponent(file.name)])
    ensures var served := Retrieve(Posted(files, id, UploadedRequest(file), None),
                                   id + "." + ext, false, parseMediaType, extensionsByType);
      && served.Stream?
      && served.contentType == file.mimeType
      && SaveFor(FetchResponse(true, Some(served.disposition), served.body)) ==
         Some(SavedFile(file.name, file.content))
  {
    var enc := EncodeUriComponent(file.name);
    var req := UploadedRequest(file);
    PostThenGet(files, id, req, "." + ext, parseMediaType, extensionsByType);
    assert id + ("." + ext) == id + "." + ext;
    assert FilenameParam(parseMediaType(req.disposition)) == enc;
    var header := ContentDispositionHeader(enc);
    FilenameSurvivesTransfer(file.name);
    SaveForCases(FetchResponse(true, Some(header), file.content));
  }
}

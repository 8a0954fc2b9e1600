/**
 * The web pages compiled into the firmware (`webfiles.h`) and the replies
 * the HTTP handlers send.  An embedded file is known by its path; its
 * gzip-compressed bytes are not modelled.
 */
module WebFiles {
  import opened Wrappers
  import opened JsonDoc

  /** One entry of `webFiles[]`. */
  datatype WebFile = WebFile(path: string, size: nat)

  /** What a handler sends back. */
  datatype Response =
    | Plain(status: nat, contentType: string, body: string)
      /** `send(200, "application/json", json)` of a serialized document. */
    | JsonReply(doc: Json)
      /** `beginResponse(200, type, data, size)` with `Content-Encoding: gzip`. */
    | Embedded(contentType: string, file: WebFile)
      /** `send(LittleFS, path, type)`: a file of the flash file system. */
    | FromFlash(path: string, contentType: string)
      /** 401 with `WWW-Authenticate: Basic realm="Admin"`. */
    | AuthChallenge
    | RedirectTo(location: string)

  const NotFound: Response := Plain(404, "text/plain", "Not Found")

  /** `_findWebFile(path)`: the first embedded file with that path, if any. */
  function FindWebFile(files: seq<WebFile>, path: string): (r: Option<WebFile>)
    ensures r.Some? <==> exists i :: 0 <= i < |files| && files[i].path == path
    ensures r.Some? ==> r.value.path == path && r.value in files
    ensures r.Some? ==> exists i :: 0 <= i < |files| && files[i] == r.value && forall j :: 0 <= j < i ==> files[j].path != path
  {
    if |files| == 0 then None
    else if files[0].path == path then Some(files[0])
    else
      var r := FindWebFile(files[1..], path);
      assert forall i :: 1 <= i < |files| ==> files[i] == files[1..][i - 1];
      r
  }
}

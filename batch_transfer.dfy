/**
 * Batched transfer of a row's attachments: the multipart upload (one form
 * part per attachment, file names with doubled quotes), and the batch
 * download (a manifest of the requested row paths, the boundary taken from
 * the response's content type, and the parts written to disk in stream order).
 */
module BatchTransfer {
  import opened SyncCommon

  /** `CommonFileAttachmentTerms`: the row path, the local file, and its download URI. */
  datatype Attachment = Attachment(rowPathUri: string, localFile: Path, downloadUri: string)

  // ---------------------------------------------------------------- quote doubling

  /** `filename.replace("\"", "\"\"")`. */
  function EscapeQuotes(s: string): string
  {
    if s == [] then []
    else (if s[0] == '"' then "\"\"" else [s[0]]) + EscapeQuotes(s[1..])
  }

  /** Reads a doubled-quote string back: each `""` becomes `"`. */
  function UnescapeQuotes(s: string): string
  {
    if s == [] then []
    else if |s| >= 2 && s[0] == '"' && s[1] == '"' then "\"" + UnescapeQuotes(s[2..])
    else [s[0]] + UnescapeQuotes(s[1..])
  }

  /** The number of quote characters in `s`. */
  function QuoteCount(s: string): nat
  {
    if s == [] then 0 else (if s[0] == '"' then 1 else 0) + QuoteCount(s[1..])
  }

  /** Doubling the quotes loses nothing: the receiver gets the original name back. */
  lemma {:induction false} UnescapeEscape(s: string)
    ensures UnescapeQuotes(EscapeQuotes(s)) == s
  {
    if s != [] {
      UnescapeEscape(s[1..]);
      if s[0] == '"' {
        assert EscapeQuotes(s) == "\"\"" + EscapeQuotes(s[1..]);
        assert ("\"\"" + EscapeQuotes(s[1..]))[2..] == EscapeQuotes(s[1..]);
      } else {
        assert EscapeQuotes(s) == [s[0]] + EscapeQuotes(s[1..]);
        assert ([s[0]] + EscapeQuotes(s[1..]))[1..] == EscapeQuotes(s[1..]);
      }
    }
  }

  /** Every quote is doubled and nothing else is added. */
  lemma {:induction false} EscapeLength(s: string)
    ensures |EscapeQuotes(s)| == |s| + QuoteCount(s)
  {
    if s != [] {
      EscapeLength(s[1..]);
    }
  }

  // ---------------------------------------------------------------- upload

  /** One form part: its name, content disposition, content type and bytes. */
  datatype FormPart = FormPart(name: string, contentDisposition: string, contentType: string, body: Bytes)

  /** The multipart POST: upload URI, boundary, and the parts in order. */
  datatype UploadRequest = UploadRequest(uri: string, boundary: string, parts: seq<FormPart>)

  /** The form part for a file whose row path is `filename`. */
  function PartFor(filename: string, contentType: string, body: Bytes): FormPart
  {
    var escaped := EscapeQuotes(filename);
    FormPart(escaped, "file;filename=\"" + escaped + "\"", contentType, body)
  }

  /** `"ref" + UUID.randomUUID()`. */
  function BoundaryFor(uuid: string): string
  {
    "ref" + uuid
  }

  /** Whether some attachment's local file cannot be read. */
  predicate SomeFileMissing(batch: seq<Attachment>, fs: FileSystem)
  {
    exists i :: 0 <= i < |batch| && batch[i].localFile !in fs
  }

  /**
   * `uploadInstanceFileBatch`: one part per attachment in batch order, named
   * by the file's row path (`rowpathOf`) with its quotes doubled, carrying the
   * file's bytes; the request is sent only when every file could be read, and
   * only 201 counts as success. `contentTypeOf` stands for the content type
   * guessed from the file name.
   */
  method UploadInstanceFileBatch(batch: seq<Attachment>, uploadUri: string, uuid: string, fs: FileSystem,
                                 rowpathOf: Path -> string, contentTypeOf: Path -> string, reply: Reply<()>)
    returns (sent: Option<UploadRequest>, result: Outcome<SyncError>)
    ensures sent.None? <==> SomeFileMissing(batch, fs)
    ensures sent.None? ==> result == Fail(LocalIO)
    ensures sent.Some? ==>
              && sent.value.uri == uploadUri
              && sent.value.boundary == BoundaryFor(uuid)
              && |sent.value.parts| == |batch|
              && (forall i :: 0 <= i < |batch| ==>
                    sent.value.parts[i] == PartFor(rowpathOf(batch[i].localFile), contentTypeOf(batch[i].localFile),
                                                   fs[batch[i].localFile]))
              && (forall i :: 0 <= i < |batch| ==>
                    UnescapeQuotes(sent.value.parts[i].name) == rowpathOf(batch[i].localFile))
              && (result.Pass? <==> reply.Responded? && reply.response.status == SC_CREATED)
              && (result.Fail? ==> Execute(reply, SC_CREATED_ONLY) == Failure(result.error))
  {
    var boundary := BoundaryFor(uuid);
    var parts: seq<FormPart> := [];
    var i := 0;
    while i < |batch|
      invariant 0 <= i <= |batch|
      invariant |parts| == i
      invariant forall k :: 0 <= k < i ==> batch[k].localFile in fs
      invariant forall k :: 0 <= k < i ==>
                  parts[k] == PartFor(rowpathOf(batch[k].localFile), contentTypeOf(batch[k].localFile),
                                      fs[batch[k].localFile])
      invariant forall k :: 0 <= k < i ==> UnescapeQuotes(parts[k].name) == rowpathOf(batch[k].localFile)
    {
      var cat := batch[i];
      var ct := contentTypeOf(cat.localFile);
      var filename := rowpathOf(cat.localFile);
      filename := EscapeQuotes(filename);
      UnescapeEscape(rowpathOf(cat.localFile));
      if cat.localFile !in fs {
        // the file cannot be opened: the exception ends the upload before any request
        return None, Fail(LocalIO);
      }
      var content := fs[cat.localFile];
      parts := parts + [FormPart(filename, "file;filename=\"" + filename + "\"", ct, content)];
      i := i + 1;
    }
    sent := Some(UploadRequest(uploadUri, boundary, parts));
    match Execute(reply, SC_CREATED_ONLY)
    case Success(_) => result := Pass;
    case Failure(e) => result := Fail(e);
  }

  // ---------------------------------------------------------------- download: request manifest

  /**
   * The manifest posted by `downloadInstanceFileBatch`: exactly the
   * attachments' row paths, in batch order.
   */
  method RequestedFiles(batch: seq<Attachment>) returns (filenames: seq<string>)
    ensures |filenames| == |batch|
    ensures forall i :: 0 <= i < |batch| ==> filenames[i] == batch[i].rowPathUri
  {
    filenames := [];
    for i := 0 to |batch|
      invariant |filenames| == i
      invariant forall k :: 0 <= k < i ==> filenames[k] == batch[k].rowPathUri
    {
      filenames := filenames + [batch[i].rowPathUri];
    }
  }

  // ---------------------------------------------------------------- download: boundary

  /** A parameter of a header element, such as `boundary=...`; a bare parameter has a null value. */
  datatype NameValuePair = NameValuePair(name: string, value: Option<string>)

  /** One element of the Content-Type header and its parameters. */
  datatype HeaderElement = HeaderElement(name: string, parameters: seq<NameValuePair>)

  /** The parameter name the boundary is looked up by. */
  const BOUNDARY: string := "boundary"

  /**
   * The first boundary parameter of one element: `None` when the element has
   * none, otherwise `Some` of its value, which may itself be null.
   */
  function FirstBoundary(params: seq<NameValuePair>): Option<Option<string>>
  {
    if params == [] then None
    else if params[0].name == BOUNDARY then Some(params[0].value)
    else FirstBoundary(params[1..])
  }

  /**
   * The boundary the source settles on: the value of the first boundary
   * parameter of the last element that has one (null when that parameter is
   * bare), or null when no element has one.
   */
  function LastElementBoundary(elements: seq<HeaderElement>): Option<string>
  {
    if elements == [] then None
    else
      var b := FirstBoundary(elements[|elements| - 1].parameters);
      if b.Some? then b.value else LastElementBoundary(elements[..|elements| - 1])
  }

  /** `FirstBoundary` finds the first parameter named `boundary`, and nothing when there is none. */
  lemma {:induction false} FirstBoundaryAt(params: seq<NameValuePair>, j: nat)
    requires j <= |params|
    requires forall k :: 0 <= k < j ==> params[k].name != BOUNDARY
    ensures j < |params| && params[j].name == BOUNDARY ==> FirstBoundary(params) == Some(params[j].value)
    ensures j == |params| ==> FirstBoundary(params) == None
  {
    if j > 0 {
      FirstBoundaryAt(params[1..], j - 1);
    }
  }

  /** When no element carries a boundary parameter, no boundary is found. */
  lemma {:induction false} NoCarrierNoBoundary(elements: seq<HeaderElement>)
    requires forall i :: 0 <= i < |elements| ==> FirstBoundary(elements[i].parameters).None?
    ensures LastElementBoundary(elements) == None
  {
    if elements != [] {
      var n := |elements| - 1;
      var front := elements[..n];
      assert forall i :: 0 <= i < n ==> front[i] == elements[i];
      NoCarrierNoBoundary(front);
    }
  }

  /**
   * When element `i` carries a boundary parameter and no later element does,
   * the boundary found is the value of element `i`'s parameter, whatever
   * earlier elements carry; a bare parameter there yields no boundary.
   */
  lemma {:induction false} LastCarrierDecides(elements: seq<HeaderElement>, i: nat)
    requires i < |elements|
    requires FirstBoundary(elements[i].parameters).Some?
    requires forall k :: i < k < |elements| ==> FirstBoundary(elements[k].parameters).None?
    ensures LastElementBoundary(elements) == FirstBoundary(elements[i].parameters).value
  {
    var n := |elements| - 1;
    if i < n {
      var front := elements[..n];
      assert forall k :: 0 <= k < n ==> front[k] == elements[k];
      LastCarrierDecides(front, i);
    }
  }

  /**
   * The nested search of the response's Content-Type elements: the inner
   * `break` leaves only the parameter loop, so the last element carrying a
   * boundary parameter decides, even when that parameter is bare.
   */
  method ExtractBoundary(elements: seq<HeaderElement>) returns (boundaryVal: Option<string>)
    ensures boundaryVal == LastElementBoundary(elements)
  {
    boundaryVal := None;
    for i := 0 to |elements|
      invariant boundaryVal == LastElementBoundary(elements[..i])
    {
      var params := elements[i].parameters;
      var j := 0;
      while j < |params|
        invariant 0 <= j <= |params|
        invariant forall k :: 0 <= k < j ==> params[k].name != BOUNDARY
        invariant boundaryVal == LastElementBoundary(elements[..i])
      {
        if params[j].name == BOUNDARY {
          break;
        }
        j := j + 1;
      }
      FirstBoundaryAt(params, j);
      if j < |params| {
        boundaryVal := params[j].value;
      }
      assert elements[..i + 1][..i] == elements[..i];
    }
    assert elements[..|elements|] == elements;
  }

  // ---------------------------------------------------------------- download: writing the parts

  /** One part of the multipart response: its header block and its body. */
  datatype MultipartPart = MultipartPart(headers: string, body: Bytes)

  /** The index of the first part whose headers name no relative path, or the number of parts. */
  function FirstUnnamed(parts: seq<MultipartPart>, relativePathOf: string -> Option<string>): (k: nat)
    ensures k <= |parts|
    ensures forall i :: 0 <= i < k ==> relativePathOf(parts[i].headers).Some?
    ensures k < |parts| ==> relativePathOf(parts[k].headers).None?
  {
    if parts == [] then 0
    else if relativePathOf(parts[0].headers).None? then 0
    else 1 + FirstUnnamed(parts[1..], relativePathOf)
  }

  /** The file system after writing each of `parts` to its row-path file, in order. */
  function Written(fs: FileSystem, parts: seq<MultipartPart>, relativePathOf: string -> Option<string>,
                   fileOf: string -> Path): FileSystem
    requires forall i :: 0 <= i < |parts| ==> relativePathOf(parts[i].headers).Some?
  {
    if parts == [] then fs
    else
      var last := parts[|parts| - 1];
      Written(fs, parts[..|parts| - 1], relativePathOf, fileOf)[fileOf(relativePathOf(last.headers).value) := last.body]
  }

  /** The file a part is written to. */
  function TargetOf(part: MultipartPart, relativePathOf: string -> Option<string>, fileOf: string -> Path): Path
    requires relativePathOf(part.headers).Some?
  {
    fileOf(relativePathOf(part.headers).value)
  }

  /** A file no part targets is left as it was. */
  lemma {:induction false} WrittenKeepsUntargeted(fs: FileSystem, parts: seq<MultipartPart>,
                                                  relativePathOf: string -> Option<string>, fileOf: string -> Path,
                                                  p: Path)
    requires forall i :: 0 <= i < |parts| ==> relativePathOf(parts[i].headers).Some?
    requires forall i :: 0 <= i < |parts| ==> TargetOf(parts[i], relativePathOf, fileOf) != p
    ensures var w := Written(fs, parts, relativePathOf, fileOf);
            (p in w <==> p in fs) && (p in fs ==> w[p] == fs[p])
  {
    if parts != [] {
      var n := |parts| - 1;
      var front := parts[..n];
      assert forall i :: 0 <= i < n ==> front[i] == parts[i];
      WrittenKeepsUntargeted(fs, front, relativePathOf, fileOf, p);
    }
  }

  /**
   * A file targeted by several parts holds the body of the last of them: the
   * bodies of earlier parts with the same path are overwritten.
   */
  lemma {:induction false} WrittenHoldsLastWriter(fs: FileSystem, parts: seq<MultipartPart>,
                                                  relativePathOf: string -> Option<string>, fileOf: string -> Path,
                                                  i: nat)
    requires forall k :: 0 <= k < |parts| ==> relativePathOf(parts[k].headers).Some?
    requires i < |parts|
    requires forall k :: i < k < |parts| ==>
               TargetOf(parts[k], relativePathOf, fileOf) != TargetOf(parts[i], relativePathOf, fileOf)
    ensures var w := Written(fs, parts, relativePathOf, fileOf);
            var p := TargetOf(parts[i], relativePathOf, fileOf);
            p in w && w[p] == parts[i].body
  {
    var n := |parts| - 1;
    if i < n {
      var front := parts[..n];
      assert forall k :: 0 <= k < n ==> front[k] == parts[k];
      WrittenHoldsLastWriter(fs, front, relativePathOf, fileOf, i);
    }
  }

  /**
   * The multipart read loop: each part's relative path is taken from its
   * headers (`relativePathOf`) and its body written to the resolved file
   * (`fileOf`); a part without a relative path aborts the download, leaving
   * the files written before it in place.
   */
  method WriteParts(fs: FileSystem, parts: seq<MultipartPart>,
                    relativePathOf: string -> Option<string>, fileOf: string -> Path)
    returns (fs': FileSystem, result: Outcome<SyncError>)
    ensures var k := FirstUnnamed(parts, relativePathOf);
            fs' == Written(fs, parts[..k], relativePathOf, fileOf)
    ensures result.Pass? <==> FirstUnnamed(parts, relativePathOf) == |parts|
    ensures result.Fail? ==> result.error == ClientDetectedVersionMismatchedServerResponse
  {
    fs' := fs;
    var i := 0;
    var nextPart := i < |parts|;
    while nextPart
      invariant 0 <= i <= FirstUnnamed(parts, relativePathOf)
      invariant nextPart <==> i < |parts|
      invariant fs' == Written(fs, parts[..i], relativePathOf, fileOf)
      decreases |parts| - i
    {
      var header := parts[i].headers;
      var partialPath := relativePathOf(header);
      if partialPath.None? {
        return fs', Fail(ClientDetectedVersionMismatchedServerResponse);
      }
      var instFile := fileOf(partialPath.value);
      assert parts[..i + 1][..i] == parts[..i];
      fs' := fs'[instFile := parts[i].body];
      i := i + 1;
      nextPart := i < |parts|;
    }
    assert parts[..|parts|] == parts;
    result := Pass;
  }

  /** The parsed response to the batch download: the Content-Type elements and the parts. */
  datatype MultipartBody = MultipartBody(contentType: seq<HeaderElement>, parts: seq<MultipartPart>)

  /** The batch-download POST: its URI and the requested row paths. */
  datatype DownloadRequest = DownloadRequest(uri: string, filenames: seq<string>)

  /**
   * `downloadInstanceFileBatch`: posts the requested row paths, accepts only
   * 200, fails with a version mismatch when no boundary is found (writing
   * nothing) or when a part names no relative path (keeping the earlier parts).
   */
  method DownloadInstanceFileBatch(batch: seq<Attachment>, downloadUri: string, fs: FileSystem,
                                   reply: Reply<MultipartBody>,
                                   relativePathOf: string -> Option<string>, fileOf: string -> Path)
    returns (sent: DownloadRequest, fs': FileSystem, result: Outcome<SyncError>)
    ensures sent.uri == downloadUri && |sent.filenames| == |batch|
    ensures forall i :: 0 <= i < |batch| ==> sent.filenames[i] == batch[i].rowPathUri
    ensures !(reply.Responded? && reply.response.status == SC_OK) ==>
              fs' == fs && result == Fail(Execute(reply, SC_OK_ONLY).error)
    ensures reply.Responded? && reply.response.status == SC_OK ==>
              var body := reply.response.body;
              && (LastElementBoundary(body.contentType).None? ==>
                    fs' == fs && result == Fail(ClientDetectedVersionMismatchedServerResponse))
              && (LastElementBoundary(body.contentType).Some? ==>
                    && fs' == Written(fs, body.parts[..FirstUnnamed(body.parts, relativePathOf)],
                                      relativePathOf, fileOf)
                    && (result.Pass? <==> FirstUnnamed(body.parts, relativePathOf) == |body.parts|)
                    && (result.Fail? ==> result.error == ClientDetectedVersionMismatchedServerResponse))
  {
    var filenames := RequestedFiles(batch);
    sent := DownloadRequest(downloadUri, filenames);
    fs' := fs;
    var executed := Execute(reply, SC_OK_ONLY);
    if executed.Failure? {
      return sent, fs', Fail(executed.error);
    }
    var boundaryVal := ExtractBoundary(executed.value.body.contentType);
    if boundaryVal.None? {
      return sent, fs', Fail(ClientDetectedVersionMismatchedServerResponse);
    }
    fs', result := WriteParts(fs, executed.value.body.parts, relativePathOf, fileOf);
  }
}

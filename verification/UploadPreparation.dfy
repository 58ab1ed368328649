/** Preparing an upload: read the stream, take its fingerprint, check its content
    (application/documents/service.py, application/documents/upload_validation.py). */
module UploadPreparation {
  import opened Common
  import opened UploadReader
  import opened UploadProtocol
  import N = UploadNames

  /** The content checks of the types that need the whole body, such as DOCX, are a parameter. */
  datatype UploadKind = BySamples(kind: SampledType) | ByBody(check: Bytes -> Option<PrepareError>)

  datatype PreparedUpload = PreparedUpload(upload: Upload, streamed: StreamedUpload, fingerprint: string)

  function CodeOf(error: UploadError): string {
    match error
    case FileTooLarge => "file_too_large"
    case StreamReadFailed => "stream_read_failed"
    case EmptyFile => "empty_file"
    case InvalidFileSignature => "invalid_file_signature"
    case MalformedFile => "malformed_file"
  }

  /** validate_streamed_content. */
  function ContentError(kind: UploadKind, streamed: StreamedUpload): Option<PrepareError> {
    match kind
    case BySamples(k) =>
      (match ValidateSamples(k, streamed.prefix, streamed.suffix)
       case None => None
       case Some(e) => Some(Invalid(CodeOf(e))))
    case ByBody(check) => check(streamed.body)
  }

  /** _prepare_upload, for a normalized filename and media type: what it prepares is the whole
      stream, and hash, size and fingerprint are those the stores and later requests compare. */
  method PrepareUpload(h: Digests, s: Stream, max: nat, filename: string, mediaType: string, kind: UploadKind)
    returns (r: Result<PreparedUpload, PrepareError>)
    ensures exists last: nat ::
      && last <= max && StopsAt(s, max, last)
      && (!EndsAt(s, last) || Data(s, last) == [] ==>
            r == Failure(Invalid(if s(last).Failed? then "stream_read_failed" else if s(last).bytes != [] then "file_too_large" else "empty_file")))
      && (r.Success? ==> EndsAt(s, last) && r.value.upload == Upload(Data(s, last), filename, mediaType))
    ensures r.Success? ==>
      var p := r.value;
      && p.streamed.body == p.upload.data && p.upload.data != [] && |p.upload.data| <= max
      && p.fingerprint == Fingerprint(h, p.upload)
      && (forall org :: NewDocument(h, org, p.upload).hash == p.streamed.contentHash
                     && NewDocument(h, org, p.upload).byteSize == p.streamed.byteSize)
      && (kind.BySamples? ==> ValidateSamples(kind.kind, p.upload.data, p.upload.data) == None)
  {
    var streamed := StreamUpload(s, max, h.content);
    if streamed.Failure? { return Failure(Invalid(CodeOf(streamed.error))); }
    var body := streamed.value.body;
    var fingerprint := h.text(N.Material(N.Request(streamed.value.contentHash, filename, mediaType, streamed.value.byteSize)));
    var refused := ContentError(kind, streamed.value);
    if refused.Some? { return Failure(refused.value); }
    if kind.BySamples? { SamplesDecide(kind.kind, body, h.content); }
    r := Success(PreparedUpload(Upload(body, filename, mediaType), streamed.value, fingerprint));
  }
}

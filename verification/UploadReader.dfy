/** Reading an upload of unknown length and validating it on samples
    (application/documents/upload_validation.py). */
module UploadReader {
  import opened Common

  type Byte = b: int | 0 <= b < 256

  type Bytes = seq<Byte>

  datatype ReadResult = Chunk(bytes: Bytes) | Failed

  /** What the n-th read of a stream yields; a stream need not end. */
  type Stream = nat -> ReadResult

  datatype UploadError = FileTooLarge | StreamReadFailed | EmptyFile | InvalidFileSignature | MalformedFile

  datatype StreamedUpload = StreamedUpload(body: Bytes, contentHash: string, byteSize: nat, prefix: Bytes, suffix: Bytes)

  const VALIDATION_PREFIX_BYTES: nat := 8192
  const SUFFIX_BYTES: nat := 16

  function First(n: nat, data: Bytes): Bytes {
    if |data| <= n then data else data[..n]
  }

  function Last(n: nat, data: Bytes): Bytes {
    if |data| <= n then data else data[|data| - n..]
  }

  // ---------- what a stream carries ----------

  predicate Flowing(s: Stream, n: nat) {
    forall i: nat :: i < n ==> s(i).Chunk? && s(i).bytes != []
  }

  function Data(s: Stream, n: nat): Bytes
    requires Flowing(s, n)
  {
    if n == 0 then [] else Data(s, n - 1) + s(n - 1).bytes
  }

  predicate EndsAt(s: Stream, n: nat) {
    Flowing(s, n) && s(n) == Chunk([])
  }

  /** Reading within `max` bytes stops at read n: the stream fails, ends or overflows there. */
  predicate StopsAt(s: Stream, max: nat, n: nat) {
    && Flowing(s, n) && |Data(s, n)| <= max
    && (s(n).Failed? || s(n).bytes == [] || |Data(s, n)| + |s(n).bytes| > max)
  }

  function Sampled(data: Bytes, hash: Bytes -> string): StreamedUpload {
    StreamedUpload(data, hash(data), |data|, First(VALIDATION_PREFIX_BYTES, data), Last(SUFFIX_BYTES, data))
  }

  /** What reading stops with, from what it has seen. */
  function Verdict(s: Stream, max: nat, n: nat, hash: Bytes -> string): Result<StreamedUpload, UploadError>
    requires StopsAt(s, max, n)
  {
    if s(n).Failed? then Failure(StreamReadFailed)
    else if s(n).bytes != [] then Failure(FileTooLarge)
    else if Data(s, n) == [] then Failure(EmptyFile)
    else Success(Sampled(Data(s, n), hash))
  }

  /** The reader's loop. It ends on every stream, after at most max + 1 non-empty reads. */
  method StreamUpload(s: Stream, max: nat, hash: Bytes -> string) returns (r: Result<StreamedUpload, UploadError>)
    ensures exists last: nat ::
      && last <= max && StopsAt(s, max, last) && r == Verdict(s, max, last, hash)
      && (s(last).Failed? ==> r == Failure(StreamReadFailed))
      && (s(last).Chunk? && s(last).bytes != [] ==> r == Failure(FileTooLarge))
      && (EndsAt(s, last) && Data(s, last) == [] ==> r == Failure(EmptyFile))
      && (EndsAt(s, last) && Data(s, last) != [] ==> r.Success?)
      && (r.Success? ==> EndsAt(s, last) && r.value.body == Data(s, last))
    ensures r.Success? ==>
      var data := r.value.body;
      && r.value.contentHash == hash(data) && r.value.byteSize == |data|
      && r.value.prefix == (if |data| <= 8192 then data else data[..8192])
      && r.value.suffix == (if |data| <= 16 then data else data[|data| - 16..])
  {
    var body: Bytes, prefix: Bytes, suffix: Bytes := [], [], [];
    var byteSize := 0;
    var n := 0;
    while true
      invariant Flowing(s, n) && body == Data(s, n) && byteSize == |body|
      invariant n <= byteSize <= max
      invariant prefix == First(VALIDATION_PREFIX_BYTES, body) && suffix == Last(SUFFIX_BYTES, body)
      decreases max + 1 - byteSize
    {
      var read := s(n);
      assert read.Failed? || read.bytes == [] || byteSize + |read.bytes| > max ==> StopsAt(s, max, n);
      if read.Failed? { return Failure(StreamReadFailed); }
      var chunk := read.bytes;
      if chunk == [] { break; }
      byteSize := byteSize + |chunk|;
      if byteSize > max { return Failure(FileTooLarge); }
      PrefixGrows(body, chunk);
      SuffixGrows(body, chunk);
      body := body + chunk;
      if |prefix| < VALIDATION_PREFIX_BYTES {
        var needed := VALIDATION_PREFIX_BYTES - |prefix|;
        prefix := prefix + First(needed, chunk);
      }
      suffix := Last(SUFFIX_BYTES, suffix + chunk);
      n := n + 1;
    }
    assert StopsAt(s, max, n);
    if byteSize == 0 { return Failure(EmptyFile); }
    r := Success(StreamedUpload(body, hash(body), byteSize, prefix, suffix));
  }

  lemma PrefixGrows(body: Bytes, chunk: Bytes)
    ensures var prefix := First(VALIDATION_PREFIX_BYTES, body);
      First(VALIDATION_PREFIX_BYTES, body + chunk)
        == if |prefix| < VALIDATION_PREFIX_BYTES then prefix + First(VALIDATION_PREFIX_BYTES - |prefix|, chunk) else prefix
  {}

  lemma SuffixGrows(body: Bytes, chunk: Bytes)
    ensures Last(SUFFIX_BYTES, body + chunk) == Last(SUFFIX_BYTES, Last(SUFFIX_BYTES, body) + chunk)
  {}

  // ---------- chunking does not matter ----------

  lemma {:induction false} FlowGrows(s: Stream, m: nat, n: nat)
    requires m <= n && Flowing(s, n)
    ensures Flowing(s, m) && |Data(s, m)| + (n - m) <= |Data(s, n)| && Data(s, m) <= Data(s, n)
  {
    if m < n { FlowGrows(s, m, n - 1); }
  }

  /** There is only one read at which reading can stop, so the verdict is determined. */
  lemma StopIsUnique(s: Stream, max: nat, m: nat, n: nat)
    requires StopsAt(s, max, m) && StopsAt(s, max, n)
    ensures m == n
  {
    if m < n { FlowGrows(s, m + 1, n); }
    if n < m { FlowGrows(s, n + 1, m); }
  }

  /** Judged by the data alone: empty, too large, or accepted with its samples. */
  function VerdictOnData(data: Bytes, max: nat, hash: Bytes -> string): Result<StreamedUpload, UploadError> {
    if data == [] then Failure(EmptyFile)
    else if |data| > max then Failure(FileTooLarge)
    else Success(Sampled(data, hash))
  }

  /** However a finite stream is cut into chunks, the outcome depends only on its data. */
  lemma ChunkingIsInvisible(s: Stream, n: nat, max: nat, stop: nat, hash: Bytes -> string)
    requires EndsAt(s, n) && StopsAt(s, max, stop)
    ensures Verdict(s, max, stop, hash) == VerdictOnData(Data(s, n), max, hash)
  {
    if n < stop {
      assert false;
    } else if stop < n {
      FlowGrows(s, stop + 1, n);
      assert s(stop).bytes != [];
    }
  }

  /** A stream that never ends is refused as too large unless it fails first. */
  lemma EndlessIsRefused(s: Stream, max: nat, stop: nat, hash: Bytes -> string)
    requires StopsAt(s, max, stop) && forall n: nat :: s(n) != Chunk([])
    ensures Verdict(s, max, stop, hash) in {Failure(FileTooLarge), Failure(StreamReadFailed)}
  {
    assert s(stop) != Chunk([]);
  }

  // ---------- sample checks ----------

  datatype SampledType = Pdf | Png | Jpeg

  predicate StartsWith(data: Bytes, start: Bytes) {
    start <= data
  }

  predicate EndsWith(data: Bytes, end: Bytes) {
    |end| <= |data| && data[|data| - |end|..] == end
  }

  const PDF_SIGNATURE: Bytes := [0x25, 0x50, 0x44, 0x46, 0x2D]
  const PNG_SIGNATURE: Bytes := [0x89, 0x50, 0x4E, 0x47, 0x0D, 0x0A, 0x1A, 0x0A]
  const JPEG_START: Bytes := [0xFF, 0xD8]
  const JPEG_END: Bytes := [0xFF, 0xD9]

  /** "1.0" to "1.7" and "2.0". */
  predicate SupportedPdfVersion(v: Bytes) {
    |v| == 3 && v[1] == 0x2E && ((v[0] == 0x31 && 0x30 <= v[2] <= 0x37) || (v[0] == 0x32 && v[2] == 0x30))
  }

  /** The checks of the source, on a prefix and a suffix. */
  function ValidateSamples(kind: SampledType, prefix: Bytes, suffix: Bytes): Option<UploadError> {
    match kind
    case Pdf =>
      if !StartsWith(prefix, PDF_SIGNATURE) then Some(InvalidFileSignature)
      else if |prefix| < 8 || !SupportedPdfVersion(prefix[5..8]) then Some(MalformedFile)
      else None
    case Png => if !StartsWith(prefix, PNG_SIGNATURE) then Some(InvalidFileSignature) else None
    case Jpeg =>
      if !StartsWith(prefix, JPEG_START) then Some(InvalidFileSignature)
      else if !EndsWith(suffix, JPEG_END) then Some(MalformedFile)
      else None
  }

  lemma PrefixSuffices(data: Bytes, start: Bytes)
    requires |start| <= VALIDATION_PREFIX_BYTES
    ensures StartsWith(First(VALIDATION_PREFIX_BYTES, data), start) <==> StartsWith(data, start)
  {
    var prefix := First(VALIDATION_PREFIX_BYTES, data);
    assert prefix <= data;
    if StartsWith(data, start) { assert prefix[..|start|] == data[..|start|]; }
  }

  lemma SuffixSuffices(data: Bytes, end: Bytes)
    requires |end| <= SUFFIX_BYTES
    ensures EndsWith(Last(SUFFIX_BYTES, data), end) <==> EndsWith(data, end)
  {
    var suffix := Last(SUFFIX_BYTES, data);
    if |end| <= |data| { assert suffix[|suffix| - |end|..] == data[|data| - |end|..]; }
  }

  /** Checking the samples of an upload is checking the whole file, read as both samples. */
  lemma SamplesDecide(kind: SampledType, data: Bytes, hash: Bytes -> string)
    ensures var upload := Sampled(data, hash);
      ValidateSamples(kind, upload.prefix, upload.suffix) == ValidateSamples(kind, data, data)
  {
    PrefixSuffices(data, PDF_SIGNATURE);
    PrefixSuffices(data, PNG_SIGNATURE);
    PrefixSuffices(data, JPEG_START);
    SuffixSuffices(data, JPEG_END);
    var prefix := First(VALIDATION_PREFIX_BYTES, data);
    if |data| >= 8 { assert prefix[5..8] == data[5..8]; }
  }

  /** "%PDF-" and a version. */
  predicate IsPdf(data: Bytes) {
    |data| >= 8 && data[..5] == [0x25, 0x50, 0x44, 0x46, 0x2D] && data[6] == 0x2E
    && ((data[5] == 0x31 && data[7] in {0x30, 0x31, 0x32, 0x33, 0x34, 0x35, 0x36, 0x37}) || (data[5] == 0x32 && data[7] == 0x30))
  }

  /** An upload is accepted, refused for its first bytes or called malformed by the bytes of
      the whole file alone. */
  lemma FileDecides(kind: SampledType, data: Bytes, hash: Bytes -> string)
    ensures var upload := Sampled(data, hash);
      var r := ValidateSamples(kind, upload.prefix, upload.suffix);
      match kind
      case Pdf =>
        && (r == None <==> IsPdf(data))
        && (r == Some(InvalidFileSignature) <==> !([0x25, 0x50, 0x44, 0x46, 0x2D] <= data))
        && r in {None, Some(InvalidFileSignature), Some(MalformedFile)}
      case Png =>
        && (r == None <==> [0x89, 0x50, 0x4E, 0x47, 0x0D, 0x0A, 0x1A, 0x0A] <= data)
        && r in {None, Some(InvalidFileSignature)}
      case Jpeg =>
        && (r == None <==> |data| >= 2 && data[0] == 0xFF && data[1] == 0xD8 && data[|data| - 2] == 0xFF && data[|data| - 1] == 0xD9)
        && (r == Some(InvalidFileSignature) <==> !(|data| >= 2 && data[0] == 0xFF && data[1] == 0xD8))
        && r in {None, Some(InvalidFileSignature), Some(MalformedFile)}
  {
    SamplesDecide(kind, data, hash);
    match kind
    case Pdf => if |data| >= 8 { assert data[5..8] == [data[5], data[6], data[7]]; }
    case Png =>
    case Jpeg => if |data| >= 2 { assert data[|data| - 2..] == [data[|data| - 2], data[|data| - 1]]; }
  }
}

/** Texts the upload pipeline derives from its inputs: the request fingerprint and the
    object-storage keys (application/documents/upload_validation.py, domain/documents.py). */
module UploadNames {
  import opened Common

  // ---------- decimal numbers ----------

  function Digit(d: nat): char
    requires d < 10
  {
    '0' + d as char
  }

  function Decimal(n: nat): (s: string)
    ensures s != [] && forall c :: c in s ==> '0' <= c <= '9'
  {
    if n < 10 then [Digit(n)] else Decimal(n / 10) + [Digit(n % 10)]
  }

  function ParseDecimal(s: string): nat {
    if s == [] then 0
    else
      var c := s[|s| - 1];
      10 * ParseDecimal(s[..|s| - 1]) + if '0' <= c <= '9' then (c - '0') as nat else 0
  }

  lemma {:induction false} DecimalRoundTrip(n: nat)
    ensures ParseDecimal(Decimal(n)) == n
  {
    if n >= 10 {
      DecimalRoundTrip(n / 10);
      assert Decimal(n)[..|Decimal(n)| - 1] == Decimal(n / 10);
    } else {
      assert ParseDecimal([]) == 0;
    }
  }

  // ---------- request_fingerprint ----------

  datatype Request = Request(contentHash: string, filename: string, mediaType: string, byteSize: nat) {
    /** A 64-character digest, and a media type, whose grammar has no semicolon. */
    predicate Normalized() {
      |contentHash| == 64 && ';' !in mediaType
    }
  }

  function Material(r: Request): string {
    "sha256=" + r.contentHash + ";name=" + r.filename + ";type=" + r.mediaType + ";size=" + Decimal(r.byteSize)
  }

  /** The position of the last semicolon, or -1. */
  function LastSemicolon(s: string): (i: int)
    ensures -1 <= i < |s|
  {
    if s == [] then -1
    else if s[|s| - 1] == ';' then |s| - 1
    else LastSemicolon(s[..|s| - 1])
  }

  lemma {:induction false} LastSemicolonIs(before: string, after: string)
    requires ';' !in after
    ensures LastSemicolon(before + [';'] + after) == |before|
  {
    var s := before + [';'] + after;
    if after == [] {
      assert s[|s| - 1] == ';';
    } else {
      assert s[|s| - 1] == after[|after| - 1] && after[|after| - 1] in after;
      assert s[..|s| - 1] == before + [';'] + after[..|after| - 1];
      LastSemicolonIs(before, after[..|after| - 1]);
    }
  }

  /** Reading the text back: the digest has a fixed length, and the size and the media type
      are found from the right, whatever the filename contains. */
  function ParseMaterial(s: string): Option<Request> {
    var sizeAt := LastSemicolon(s);
    if sizeAt < 0 then None
    else
      var typeAt := LastSemicolon(s[..sizeAt]);
      if typeAt < 77 || sizeAt < typeAt + 6 || |s| < sizeAt + 6 then None
      else Some(Request(s[7..71], s[77..typeAt], s[typeAt + 6..sizeAt], ParseDecimal(s[sizeAt + 6..])))
  }

  /** Slicing the fields back out of head;kind;size, for any texts around them. */
  lemma FieldsAreFound(head: string, kind: string, size: string, s: string)
    requires s == head + [';'] + kind + [';'] + size && ';' !in kind && ';' !in size
    ensures LastSemicolon(s) == |head| + 1 + |kind|
    ensures LastSemicolon(s[..LastSemicolon(s)]) == |head|
    ensures s[..|head|] == head && s[|head| + 1..LastSemicolon(s)] == kind && s[LastSemicolon(s) + 1..] == size
  {
    LastSemicolonIs(head + [';'] + kind, size);
    assert s[..|head| + 1 + |kind|] == head + [';'] + kind;
    LastSemicolonIs(head, kind);
  }

  lemma HeadIs(start: string, hash: string, name: string, filename: string, head: string)
    requires head == start + hash + name + filename && |start| == 7 && |hash| == 64 && |name| == 6
    ensures |head| == 77 + |filename| && head[7..71] == hash && head[77..] == filename
  {}

  lemma SliceOfPrefix(s: string, head: string, i: nat, j: nat)
    requires i <= j <= |head| <= |s| && s[..|head|] == head
    ensures s[i..j] == head[i..j]
  {
    assert s[..|head|][i..j] == s[i..j];
  }

  lemma FieldsAreSliced(head: string, kind: string, size: string, s: string, mediaType: string, digits: string)
    requires s == head + [';'] + kind + [';'] + size
    requires |kind| == 5 + |mediaType| && kind[5..] == mediaType && |size| == 5 + |digits| && size[5..] == digits
    ensures s[|head| + 6..|head| + 1 + |kind|] == mediaType && s[|head| + 1 + |kind| + 6..] == digits
  {
    assert s[|head| + 1..|head| + 1 + |kind|] == kind;
    assert s[|head| + 1 + |kind| + 1..] == size;
  }

  lemma ParseFields(r: Request, head: string, kind: string, size: string, s: string, digits: string)
    requires s == head + [';'] + kind + [';'] + size && ';' !in kind && ';' !in size
    requires |head| == 77 + |r.filename| && head[7..71] == r.contentHash && head[77..] == r.filename
    requires |kind| == 5 + |r.mediaType| && kind[5..] == r.mediaType
    requires |size| == 5 + |digits| && size[5..] == digits && ParseDecimal(digits) == r.byteSize
    ensures ParseMaterial(s) == Some(r)
  {
    FieldsAreFound(head, kind, size, s);
    SliceOfPrefix(s, head, 7, 71);
    SliceOfPrefix(s, head, 77, |head|);
    FieldsAreSliced(head, kind, size, s, r.mediaType, digits);
  }

  lemma Regroup(head: string, type5: string, mediaType: string, size5: string, digits: string, type6: string, size6: string)
    requires type6 == [';'] + type5 && size6 == [';'] + size5
    ensures head + type6 + mediaType + size6 + digits == head + [';'] + (type5 + mediaType) + [';'] + (size5 + digits)
  {}

  lemma MaterialRoundTrip(r: Request)
    requires r.Normalized()
    ensures ParseMaterial(Material(r)) == Some(r)
  {
    var head, digits := "sha256=" + r.contentHash + ";name=" + r.filename, Decimal(r.byteSize);
    HeadIs("sha256=", r.contentHash, ";name=", r.filename, head);
    Regroup(head, "type=", r.mediaType, "size=", digits, ";type=", ";size=");
    DecimalRoundTrip(r.byteSize);
    ParseFields(r, head, "type=" + r.mediaType, "size=" + digits, Material(r), digits);
  }

  /** Under an injective digest, two requests have the same fingerprint exactly when hash,
      filename, media type and size all agree. */
  lemma FingerprintIsInjective(digest: string -> string, a: Request, b: Request)
    requires a.Normalized() && b.Normalized()
    requires forall x, y :: digest(x) == digest(y) ==> x == y
    ensures digest(Material(a)) == digest(Material(b)) <==> a == b
  {
    MaterialRoundTrip(a);
    MaterialRoundTrip(b);
  }

  // ---------- storage keys ----------

  predicate LowerHex(c: char) {
    '0' <= c <= '9' || 'a' <= c <= 'f'
  }

  /** The canonical text of a UUID: 36 characters, lower-case hexadecimal in five groups. */
  predicate UuidText(s: string) {
    |s| == 36 && forall i :: 0 <= i < 36 ==> if i in {8, 13, 18, 23} then s[i] == '-' else LowerHex(s[i])
  }

  predicate Digest(s: string) {
    |s| == 64 && forall i :: 0 <= i < 64 ==> LowerHex(s[i])
  }

  datatype ArtifactType = Original | Preview | Text | Export | Other {
    function Value(): string {
      match this
      case Original => "original"
      case Preview => "preview"
      case Text => "text"
      case Export => "export"
      case Other => "other"
    }
  }

  datatype KeySource =
    | DocumentContent(organization: string, digest: string)
    | TemporaryUpload(organization: string, upload: string)
    | Artifact(organization: string, document: string, kind: ArtifactType, artifact: string)
  {
    predicate Valid() {
      match this
      case DocumentContent(o, d) => UuidText(o) && Digest(d)
      case TemporaryUpload(o, u) => UuidText(o) && UuidText(u)
      case Artifact(o, d, _, a) => UuidText(o) && UuidText(d) && UuidText(a)
    }

    function Segments(): seq<string>
      requires Valid()
    {
      match this
      case DocumentContent(o, d) => ["documents", o, "sha256", d[..2], d[2..4], d]
      case TemporaryUpload(o, u) => ["tmp", o, u]
      case Artifact(o, d, k, a) => ["artifacts", o, d, k.Value(), a]
    }

    function Key(): string
      requires Valid()
    {
      Join(Segments())
    }
  }

  function Join(segments: seq<string>): string
    requires segments != []
  {
    if |segments| == 1 then segments[0] else segments[0] + "/" + Join(segments[1..])
  }

  /** value.split("/"). */
  function Split(s: string): (segments: seq<string>)
    ensures segments != []
  {
    if s == [] then [[]]
    else
      var rest := Split(s[1..]);
      if s[0] == '/' then [[]] + rest else [[s[0]] + rest[0]] + rest[1..]
  }

  predicate KeyChar(c: char) {
    'a' <= c <= 'z' || '0' <= c <= '9' || c in "/_-."
  }

  predicate Alphanumeric(c: char) {
    'a' <= c <= 'z' || '0' <= c <= '9'
  }

  predicate SafeSegment(s: string) {
    s != [] && Alphanumeric(s[0]) && forall c :: c in s ==> KeyChar(c) && c != '/'
  }

  /** StorageObjectKey.__post_init__. */
  predicate ValidKey(s: string) {
    && (forall i :: 0 <= i < |s| - 1 ==> !(s[i] == '.' && s[i + 1] == '.') && !(s[i] == '/' && s[i + 1] == '/'))
    && '\\' !in s
    && |s| >= 2 && Alphanumeric(s[0]) && Alphanumeric(s[|s| - 1])
    && (forall c :: c in s ==> KeyChar(c))
    && (forall i :: 0 <= i < |Split(s)| ==> SafeSegment(Split(s)[i]))
  }

  lemma {:induction false} SplitPrefix(a: string, s: string)
    requires '/' !in a
    ensures Split(a + s) == [a + Split(s)[0]] + Split(s)[1..]
  {
    if a == [] {
      assert a + s == s && a + Split(s)[0] == Split(s)[0];
    } else {
      assert (a + s)[1..] == a[1..] + s && a[0] in a;
      SplitPrefix(a[1..], s);
      var rest := Split(a[1..] + s);
      assert [a[0]] + (a[1..] + Split(s)[0]) == a + Split(s)[0];
      assert Split(a + s) == [[a[0]] + rest[0]] + rest[1..];
    }
  }

  lemma {:induction false} SplitJoin(segments: seq<string>)
    requires segments != [] && forall i :: 0 <= i < |segments| ==> '/' !in segments[i]
    ensures Split(Join(segments)) == segments
  {
    if |segments| == 1 {
      SplitPrefix(segments[0], []);
      assert segments[0] + [] == segments[0];
    } else {
      SplitJoin(segments[1..]);
      var rest := "/" + Join(segments[1..]);
      assert rest[1..] == Join(segments[1..]);
      assert Split(rest) == [[]] + segments[1..];
      SplitPrefix(segments[0], rest);
      assert segments[0] + "/" + Join(segments[1..]) == segments[0] + rest;
      assert segments[0] + [] == segments[0];
    }
  }

  predicate PlainSegment(s: string) {
    s != [] && Alphanumeric(s[0]) && Alphanumeric(s[|s| - 1])
    && forall i :: 0 <= i < |s| ==> Alphanumeric(s[i]) || s[i] == '-'
  }

  predicate WellPlaced(s: string) {
    && s != [] && Alphanumeric(s[0]) && Alphanumeric(s[|s| - 1])
    && (forall i :: 0 <= i < |s| ==> Alphanumeric(s[i]) || s[i] == '-' || s[i] == '/')
    && (forall i :: 0 <= i < |s| - 1 ==> !(s[i] == '/' && s[i + 1] == '/'))
  }

  lemma {:induction false} JoinIsWellPlaced(segments: seq<string>)
    requires segments != [] && forall i :: 0 <= i < |segments| ==> PlainSegment(segments[i])
    ensures WellPlaced(Join(segments)) && |Join(segments)| >= 2 * |segments| - 1
  {
    if |segments| > 1 {
      JoinIsWellPlaced(segments[1..]);
      var a, b := segments[0], Join(segments[1..]);
      var s := a + "/" + b;
      assert PlainSegment(a);
      forall i | 0 <= i < |s| ensures Alphanumeric(s[i]) || s[i] == '-' || s[i] == '/' {
        if i < |a| { assert s[i] == a[i]; } else if i > |a| { assert s[i] == b[i - |a| - 1]; }
      }
      forall i | 0 <= i < |s| - 1 ensures !(s[i] == '/' && s[i + 1] == '/') {
        if i < |a| { assert s[i] == a[i]; } else if i > |a| { assert s[i] == b[i - |a| - 1] && s[i + 1] == b[i - |a|]; }
      }
    }
  }

  lemma SegmentsArePlain(k: KeySource)
    requires k.Valid()
    ensures forall i :: 0 <= i < |k.Segments()| ==> PlainSegment(k.Segments()[i])
  {
    assert PlainSegment("documents") && PlainSegment("sha256") && PlainSegment("tmp") && PlainSegment("artifacts");
    if k.Artifact? { assert PlainSegment(k.kind.Value()); }
  }

  /** Every key the constructors build passes the validation of StorageObjectKey, and
      splitting it gives its segments back. */
  lemma KeysAreValid(k: KeySource)
    requires k.Valid()
    ensures Split(k.Key()) == k.Segments() && ValidKey(k.Key())
  {
    SegmentsArePlain(k);
    JoinIsWellPlaced(k.Segments());
    forall i | 0 <= i < |k.Segments()| ensures '/' !in k.Segments()[i] && SafeSegment(k.Segments()[i]) {
      assert PlainSegment(k.Segments()[i]);
    }
    SplitJoin(k.Segments());
  }

  /** Within a family and across families, different inputs give different keys. */
  lemma KeysAreInjective(a: KeySource, b: KeySource)
    requires a.Valid() && b.Valid()
    ensures a.Key() == b.Key() <==> a == b
  {
    KeysAreValid(a);
    KeysAreValid(b);
    if a.Key() == b.Key() {
      assert a.Segments() == b.Segments();
      assert a.Segments()[0] == b.Segments()[0] && |a.Segments()| == |b.Segments()|;
      match a {
        case DocumentContent(o, d) => assert a.Segments()[1] == b.Segments()[1] && a.Segments()[5] == b.Segments()[5];
        case TemporaryUpload(o, u) => assert a.Segments()[1] == b.Segments()[1] && a.Segments()[2] == b.Segments()[2];
        case Artifact(o, d, kind, x) =>
          assert a.Segments()[1] == b.Segments()[1] && a.Segments()[2] == b.Segments()[2] && a.Segments()[4] == b.Segments()[4];
          assert a.Segments()[3] == b.Segments()[3];
          assert kind.Value()[..2] == b.kind.Value()[..2];
      }
    }
  }
}

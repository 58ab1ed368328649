/** The bounded recursive sanitizer of audit metadata (domain/audit.py). Case folding is a
    parameter; UUID and timestamp values carry their canonical texts. */
module AuditMetadata {
  import opened Common

  const MAX_KEYS: nat := 32
  const KEY_MAX_LENGTH: nat := 64
  const STRING_MAX_LENGTH: nat := 512
  const LIST_MAX_ITEMS: nat := 32
  const MAX_DEPTH: nat := 4

  /** str(UUID). */
  type UuidText = s: string | |s| == 36 witness seq(36, _ => '0')

  /** A UTC isoformat text: at most YYYY-MM-DDTHH:MM:SS.ffffff+00:00. */
  type IsoText = s: string | |s| <= 32

  /** Mappings and lists are objects in memory, which may contain each other or themselves. */
  type Ref = nat

  type Memory = map<Ref, Node>

  /** What a caller may pass. Booleans and numbers are one kind of scalar, string enumerations
      are strings. */
  datatype Value =
    | Null
    | Scalar(number: int)
    | Text(text: string)
    | Uuid(uuid: UuidText)
    | Timestamp(aware: bool, iso: IsoText)
    | Container(ref: Ref)
    | Unsupported

  /** The keys of a mapping are given by their str() texts, which may repeat. */
  datatype Node = Mapping(entries: seq<Entry>) | Listing(items: seq<Value>)

  datatype Entry = Entry(key: string, value: Value)

  /** What is stored: JSON with unordered objects. */
  datatype Json =
    | JNull
    | JScalar(number: int)
    | JText(text: string)
    | JObject(fields: map<string, Json>)
    | JArray(elements: seq<Json>)

  datatype MetadataError = TooDeep | TooManyKeys | InvalidKey | SecretLikeKey | LongString | LongList | NaiveTimestamp | UnsupportedType

  const SECRET_PARTS: seq<string> := ["authorization", "cookie", "csrf", "digest", "hash", "password", "secret", "token"]

  predicate OccursAt(text: string, part: string, i: nat) {
    i + |part| <= |text| && text[i..i + |part|] == part
  }

  predicate Contains(text: string, part: string) {
    exists i: nat :: i <= |text| && OccursAt(text, part, i)
  }

  predicate SecretLike(fold: string -> string, key: string) {
    exists i :: 0 <= i < |SECRET_PARTS| && Contains(fold(key), SECRET_PARTS[i])
  }

  predicate ValidKey(key: string) {
    0 < |key| <= KEY_MAX_LENGTH
  }

  // ---------- the sanitizer ----------

  /** Levels of nesting still allowed: what the recursion spends. */
  function Rest(depth: nat): nat {
    if depth > MAX_DEPTH then 0 else MAX_DEPTH + 1 - depth
  }

  /** _safe_metadata. */
  function SafeMetadata(fold: string -> string, mem: Memory, entries: seq<Entry>, depth: nat): Result<map<string, Json>, MetadataError>
    decreases Rest(depth), 3, 0
  {
    if depth > MAX_DEPTH then Failure(TooDeep)
    else if |entries| > MAX_KEYS then Failure(TooManyKeys)
    else SafeEntries(fold, mem, entries, |entries|, depth)
  }

  /** The dictionary filled from the first n entries; a repeated key text keeps the last value. */
  function SafeEntries(fold: string -> string, mem: Memory, entries: seq<Entry>, n: nat, depth: nat): Result<map<string, Json>, MetadataError>
    requires n <= |entries|
    decreases Rest(depth), 2, n
  {
    if n == 0 then Success(map[])
    else
      match SafeEntries(fold, mem, entries, n - 1, depth)
      case Failure(e) => Failure(e)
      case Success(safe) => AddEntry(safe, entries[n - 1].key, SafeValue(fold, mem, entries[n - 1].key, entries[n - 1].value, depth))
  }

  function AddEntry(safe: map<string, Json>, key: string, value: Result<Json, MetadataError>): Result<map<string, Json>, MetadataError> {
    if !ValidKey(key) then Failure(InvalidKey)
    else
      match value
      case Failure(e) => Failure(e)
      case Success(j) => Success(safe[key := j])
  }

  /** _safe_metadata_value. */
  function SafeValue(fold: string -> string, mem: Memory, key: string, value: Value, depth: nat): Result<Json, MetadataError>
    decreases Rest(depth), 1, 0
  {
    if SecretLike(fold, key) then Failure(SecretLikeKey)
    else
      match value
      case Null => Success(JNull)
      case Scalar(n) => Success(JScalar(n))
      case Text(s) => if |s| > STRING_MAX_LENGTH then Failure(LongString) else Success(JText(s))
      case Uuid(u) => Success(JText(u))
      case Timestamp(aware, iso) => if aware then Success(JText(iso)) else Failure(NaiveTimestamp)
      case Container(ref) =>
        if ref !in mem then Failure(UnsupportedType)
        else if depth >= MAX_DEPTH then Failure(TooDeep)
        else
          (match mem[ref]
           case Mapping(entries) =>
             (match SafeMetadata(fold, mem, entries, depth + 1)
              case Failure(e) => Failure(e)
              case Success(m) => Success(JObject(m)))
           case Listing(items) =>
             if |items| > LIST_MAX_ITEMS then Failure(LongList)
             else
               (match SafeItems(fold, mem, key, items, |items|, depth + 1)
                case Failure(e) => Failure(e)
                case Success(js) => Success(JArray(js))))
      case Unsupported => Failure(UnsupportedType)
  }

  function SafeItems(fold: string -> string, mem: Memory, key: string, items: seq<Value>, n: nat, depth: nat): Result<seq<Json>, MetadataError>
    requires n <= |items|
    decreases Rest(depth), 2, n
  {
    if n == 0 then Success([])
    else
      match SafeItems(fold, mem, key, items, n - 1, depth)
      case Failure(e) => Failure(e)
      case Success(js) =>
        match SafeValue(fold, mem, key, items[n - 1], depth)
        case Failure(e) => Failure(e)
        case Success(j) => Success(js + [j])
  }

  /** The loop of _safe_metadata. */
  method BuildMetadata(fold: string -> string, mem: Memory, entries: seq<Entry>, depth: nat) returns (r: Result<map<string, Json>, MetadataError>)
    ensures r == SafeMetadata(fold, mem, entries, depth)
  {
    if depth > MAX_DEPTH { return Failure(TooDeep); }
    if |entries| > MAX_KEYS { return Failure(TooManyKeys); }
    var safe: map<string, Json> := map[];
    var i := 0;
    while i < |entries|
      invariant 0 <= i <= |entries|
      invariant SafeEntries(fold, mem, entries, i, depth) == Success(safe)
    {
      var key := entries[i].key;
      if !ValidKey(key) {
        FirstFailureWins(fold, mem, entries, i + 1, depth);
        return Failure(InvalidKey);
      }
      var value := SafeValue(fold, mem, key, entries[i].value, depth);
      if value.Failure? {
        FirstFailureWins(fold, mem, entries, i + 1, depth);
        return Failure(value.error);
      }
      safe := safe[key := value.value];
      i := i + 1;
    }
    r := Success(safe);
  }

  lemma {:induction false} FirstFailureWins(fold: string -> string, mem: Memory, entries: seq<Entry>, n: nat, depth: nat)
    requires n <= |entries| && SafeEntries(fold, mem, entries, n, depth).Failure?
    ensures SafeEntries(fold, mem, entries, |entries|, depth) == SafeEntries(fold, mem, entries, n, depth)
    decreases |entries| - n
  {
    if n < |entries| { FirstFailureWins(fold, mem, entries, n + 1, depth); }
  }

  // ---------- nesting beyond the bound ----------

  function Children(node: Node): seq<Value> {
    match node
    case Mapping(entries) => seq(|entries|, i requires 0 <= i < |entries| => entries[i].value)
    case Listing(items) => items
  }

  /** n containers, each inside the one before, beginning with this value. */
  predicate Nested(mem: Memory, value: Value, n: nat)
    decreases n
  {
    n == 0
    || (value.Container? && value.ref in mem
        && (n == 1 || exists i :: 0 <= i < |Children(mem[value.ref])| && Nested(mem, Children(mem[value.ref])[i], n - 1)))
  }

  lemma {:induction false} EntrySucceeds(fold: string -> string, mem: Memory, entries: seq<Entry>, n: nat, depth: nat, i: nat)
    requires i < n <= |entries| && SafeEntries(fold, mem, entries, n, depth).Success?
    ensures SafeValue(fold, mem, entries[i].key, entries[i].value, depth).Success?
    decreases n
  {
    if i < n - 1 { EntrySucceeds(fold, mem, entries, n - 1, depth, i); }
  }

  lemma {:induction false} ItemSucceeds(fold: string -> string, mem: Memory, key: string, items: seq<Value>, n: nat, depth: nat, i: nat)
    requires i < n <= |items| && SafeItems(fold, mem, key, items, n, depth).Success?
    ensures SafeValue(fold, mem, key, items[i], depth).Success?
    decreases n
  {
    if i < n - 1 { ItemSucceeds(fold, mem, key, items, n - 1, depth, i); }
  }

  /** Nesting deeper than the levels left is refused, wherever it occurs. */
  lemma {:induction false} DeepNestingIsRefused(fold: string -> string, mem: Memory, key: string, value: Value, depth: nat, n: nat)
    requires Nested(mem, value, n) && n + depth > MAX_DEPTH && depth <= MAX_DEPTH
    ensures SafeValue(fold, mem, key, value, depth).Failure?
    decreases n
  {
    if n > 1 && depth < MAX_DEPTH && SafeValue(fold, mem, key, value, depth).Success? {
      var node := mem[value.ref];
      var i :| 0 <= i < |Children(node)| && Nested(mem, Children(node)[i], n - 1);
      match node
      case Mapping(entries) =>
        assert SafeMetadata(fold, mem, entries, depth + 1).Success?;
        EntrySucceeds(fold, mem, entries, |entries|, depth + 1, i);
        DeepNestingIsRefused(fold, mem, entries[i].key, entries[i].value, depth + 1, n - 1);
      case Listing(items) =>
        ItemSucceeds(fold, mem, key, items, |items|, depth + 1, i);
        DeepNestingIsRefused(fold, mem, key, items[i], depth + 1, n - 1);
    }
  }

  /** Each container of the chain holds the next one. */
  ghost predicate Chain(mem: Memory, refs: seq<Ref>) {
    && refs != [] && (forall i :: 0 <= i < |refs| ==> refs[i] in mem)
    && forall i :: 0 <= i < |refs| - 1 ==> Container(refs[i + 1]) in Children(mem[refs[i]])
  }

  /** Some container below this value, or the value itself, contains itself, at any number of
      removes. */
  ghost predicate Endless(mem: Memory, value: Value) {
    exists refs, back :: Chain(mem, refs) && 0 <= back < |refs| - 1 && refs[back] == refs[|refs| - 1] && value == Container(refs[0])
  }

  lemma {:induction false} ChainNests(mem: Memory, refs: seq<Ref>, back: nat, k: nat, n: nat)
    requires Chain(mem, refs) && back < |refs| - 1 && refs[back] == refs[|refs| - 1] && k < |refs|
    ensures Nested(mem, Container(refs[k]), n)
    decreases n
  {
    if n > 1 {
      var here := if k == |refs| - 1 then back else k;
      ChainNests(mem, refs, back, here + 1, n - 1);
      var i :| 0 <= i < |Children(mem[refs[here]])| && Children(mem[refs[here]])[i] == Container(refs[here + 1]);
    }
  }

  lemma EndlessNests(mem: Memory, value: Value, n: nat)
    requires Endless(mem, value)
    ensures Nested(mem, value, n)
  {
    var refs, back :| Chain(mem, refs) && 0 <= back < |refs| - 1 && refs[back] == refs[|refs| - 1] && value == Container(refs[0]);
    ChainNests(mem, refs, back, 0, n);
  }

  /** Metadata with a mapping or list that contains itself, however far down and however
      indirectly, is refused: the depth bound, not the shape of the input, is what ends the
      recursion. */
  lemma SelfContainingIsRefused(fold: string -> string, mem: Memory, entries: seq<Entry>, i: nat)
    requires i < |entries| && Endless(mem, entries[i].value)
    ensures SafeMetadata(fold, mem, entries, 0).Failure?
  {
    EndlessNests(mem, entries[i].value, MAX_DEPTH + 1);
    DeepNestingIsRefused(fold, mem, entries[i].key, entries[i].value, 0, MAX_DEPTH + 1);
    if SafeMetadata(fold, mem, entries, 0).Success? { EntrySucceeds(fold, mem, entries, |entries|, 0, i); }
  }

  // ---------- what accepted metadata looks like ----------

  /** Bounded nesting and sizes, and no secret-like key anywhere below. */
  predicate SafeJson(fold: string -> string, key: string, j: Json, depth: nat)
    decreases j
  {
    && !SecretLike(fold, key)
    && match j
       case JText(s) => |s| <= STRING_MAX_LENGTH
       case JObject(fields) =>
         && depth < MAX_DEPTH && |fields| <= MAX_KEYS
         && (forall k :: k in fields ==> ValidKey(k) && SafeJson(fold, k, fields[k], depth + 1))
       case JArray(elements) =>
         && depth < MAX_DEPTH && |elements| <= LIST_MAX_ITEMS
         && (forall i :: 0 <= i < |elements| ==> SafeJson(fold, key, elements[i], depth + 1))
       case _ => true
  }

  predicate SafeFields(fold: string -> string, fields: map<string, Json>, depth: nat) {
    |fields| <= MAX_KEYS && forall k :: k in fields ==> ValidKey(k) && SafeJson(fold, k, fields[k], depth)
  }

  lemma {:induction false} ValueIsSafe(fold: string -> string, mem: Memory, key: string, value: Value, depth: nat)
    requires SafeValue(fold, mem, key, value, depth).Success?
    ensures SafeJson(fold, key, SafeValue(fold, mem, key, value, depth).value, depth)
    decreases Rest(depth), 1, 0
  {
    if value.Container? {
      match mem[value.ref]
      case Mapping(entries) => EntriesAreSafe(fold, mem, entries, |entries|, depth + 1);
      case Listing(items) => ItemsAreSafe(fold, mem, key, items, |items|, depth + 1);
    }
  }

  lemma {:induction false} EntriesAreSafe(fold: string -> string, mem: Memory, entries: seq<Entry>, n: nat, depth: nat)
    requires n <= |entries| && SafeEntries(fold, mem, entries, n, depth).Success?
    ensures var fields := SafeEntries(fold, mem, entries, n, depth).value;
      |fields| <= n && forall k :: k in fields ==> ValidKey(k) && SafeJson(fold, k, fields[k], depth)
    decreases Rest(depth), 2, n
  {
    if n > 0 {
      EntriesAreSafe(fold, mem, entries, n - 1, depth);
      ValueIsSafe(fold, mem, entries[n - 1].key, entries[n - 1].value, depth);
    }
  }

  lemma {:induction false} ItemsAreSafe(fold: string -> string, mem: Memory, key: string, items: seq<Value>, n: nat, depth: nat)
    requires n <= |items| && SafeItems(fold, mem, key, items, n, depth).Success?
    ensures var js := SafeItems(fold, mem, key, items, n, depth).value;
      |js| == n && forall i :: 0 <= i < n ==> SafeJson(fold, key, js[i], depth)
    decreases Rest(depth), 2, n
  {
    if n > 0 {
      ItemsAreSafe(fold, mem, key, items, n - 1, depth);
      ValueIsSafe(fold, mem, key, items[n - 1], depth);
    }
  }

  /** Accepted metadata is bounded in every direction and free of secret-like keys. */
  lemma AcceptedMetadataIsSafe(fold: string -> string, mem: Memory, entries: seq<Entry>, depth: nat)
    requires SafeMetadata(fold, mem, entries, depth).Success?
    ensures SafeFields(fold, SafeMetadata(fold, mem, entries, depth).value, depth)
  {
    EntriesAreSafe(fold, mem, entries, |entries|, depth);
  }

  predicate NestingAtMost(j: Json, n: nat)
    decreases j
  {
    match j
    case JObject(fields) => n > 0 && forall k :: k in fields ==> NestingAtMost(fields[k], n - 1)
    case JArray(elements) => n > 0 && forall i :: 0 <= i < |elements| ==> NestingAtMost(elements[i], n - 1)
    case _ => true
  }

  lemma {:induction false} SafeJsonIsShallow(fold: string -> string, key: string, j: Json, depth: nat)
    requires SafeJson(fold, key, j, depth) && depth <= MAX_DEPTH
    ensures NestingAtMost(j, MAX_DEPTH - depth)
    decreases j
  {
    match j {
      case JObject(fields) =>
        forall k | k in fields ensures NestingAtMost(fields[k], MAX_DEPTH - depth - 1) {
          SafeJsonIsShallow(fold, k, fields[k], depth + 1);
        }
      case JArray(elements) =>
        forall i | 0 <= i < |elements| ensures NestingAtMost(elements[i], MAX_DEPTH - depth - 1) {
          SafeJsonIsShallow(fold, key, elements[i], depth + 1);
        }
      case _ =>
    }
  }

  /** A key at any depth below, following object fields and array elements. */
  predicate HasKey(j: Json, key: string)
    decreases j
  {
    match j
    case JObject(fields) => key in fields || exists k :: k in fields && HasKey(fields[k], key)
    case JArray(elements) => exists i :: 0 <= i < |elements| && HasKey(elements[i], key)
    case _ => false
  }

  lemma {:induction false} NoSecretBelow(fold: string -> string, above: string, j: Json, depth: nat, key: string)
    requires SafeJson(fold, above, j, depth) && HasKey(j, key)
    ensures !SecretLike(fold, key) && ValidKey(key)
    decreases j
  {
    match j {
      case JObject(fields) =>
        if key in fields {
          assert SafeJson(fold, key, fields[key], depth + 1);
        } else {
          var k :| k in fields && HasKey(fields[k], key);
          NoSecretBelow(fold, k, fields[k], depth + 1, key);
        }
      case JArray(elements) =>
        var i :| 0 <= i < |elements| && HasKey(elements[i], key);
        NoSecretBelow(fold, above, elements[i], depth + 1, key);
    }
  }

  // ---------- reading a record back ----------

  /** A value read back from stored JSON, its object fields in any order. */
  predicate Presents(mem: Memory, value: Value, j: Json)
    decreases j, 1
  {
    match j
    case JNull => value == Null
    case JScalar(n) => value == Scalar(n)
    case JText(s) => value == Text(s)
    case JObject(fields) =>
      value.Container? && value.ref in mem && mem[value.ref].Mapping? && PresentsFields(mem, mem[value.ref].entries, j)
    case JArray(elements) =>
      && value.Container? && value.ref in mem && mem[value.ref].Listing? && |mem[value.ref].items| == |elements|
      && (forall i :: 0 <= i < |elements| ==> Presents(mem, mem[value.ref].items[i], elements[i]))
  }

  predicate PresentsFields(mem: Memory, entries: seq<Entry>, j: Json)
    requires j.JObject?
    decreases j, 0
  {
    && |entries| == |j.fields|
    && (forall i, k :: 0 <= i < k < |entries| ==> entries[i].key != entries[k].key)
    && (forall i :: 0 <= i < |entries| ==> entries[i].key in j.fields)
    && (forall i :: 0 <= i < |entries| ==> assert entries[i].key in j.fields.Keys; Presents(mem, entries[i].value, j.fields[entries[i].key]))
  }

  lemma SubsetOfSameSize<T>(a: set<T>, b: set<T>)
    requires a <= b && |a| == |b|
    ensures a == b
  {
    assert b == a + (b - a);
    assert |b - a| == 0;
  }

  /** The stored fields named by the first n entries. */
  function FirstFields(entries: seq<Entry>, fields: map<string, Json>, n: nat): map<string, Json>
    requires n <= |entries| && forall i :: 0 <= i < |entries| ==> entries[i].key in fields
  {
    if n == 0 then map[] else FirstFields(entries, fields, n - 1)[entries[n - 1].key := fields[entries[n - 1].key]]
  }

  lemma {:induction false} FirstFieldsAre(entries: seq<Entry>, fields: map<string, Json>, n: nat)
    requires n <= |entries| && forall i :: 0 <= i < |entries| ==> entries[i].key in fields
    requires forall i, k :: 0 <= i < k < |entries| ==> entries[i].key != entries[k].key
    ensures var first := FirstFields(entries, fields, n);
      && |first| == n
      && (forall k :: k in first ==> k in fields && first[k] == fields[k])
      && (forall i :: n <= i < |entries| ==> entries[i].key !in first)
  {
    if n > 0 { FirstFieldsAre(entries, fields, n - 1); }
  }

  lemma AllFields(entries: seq<Entry>, fields: map<string, Json>)
    requires |entries| == |fields| && forall i :: 0 <= i < |entries| ==> entries[i].key in fields
    requires forall i, k :: 0 <= i < k < |entries| ==> entries[i].key != entries[k].key
    ensures FirstFields(entries, fields, |entries|) == fields
  {
    FirstFieldsAre(entries, fields, |entries|);
    SubsetOfSameSize(FirstFields(entries, fields, |entries|).Keys, fields.Keys);
  }

  lemma {:induction false} EntriesReadBack(fold: string -> string, mem: Memory, entries: seq<Entry>, j: Json, n: nat, depth: nat)
    requires j.JObject? && PresentsFields(mem, entries, j) && n <= |entries|
    requires forall k :: k in j.fields ==> ValidKey(k) && SafeJson(fold, k, j.fields[k], depth)
    ensures SafeEntries(fold, mem, entries, n, depth) == Success(FirstFields(entries, j.fields, n))
    decreases Rest(depth), 2, n
  {
    if n > 0 {
      EntriesReadBack(fold, mem, entries, j, n - 1, depth);
      var e := entries[n - 1];
      ReadsBack(fold, mem, e.key, e.value, j.fields[e.key], depth);
    }
  }

  lemma {:induction false} ItemsReadBack(fold: string -> string, mem: Memory, key: string, items: seq<Value>, elements: seq<Json>, n: nat, depth: nat)
    requires n <= |items| == |elements| && forall i :: 0 <= i < |items| ==> Presents(mem, items[i], elements[i])
    requires forall i :: 0 <= i < |elements| ==> SafeJson(fold, key, elements[i], depth)
    ensures SafeItems(fold, mem, key, items, n, depth) == Success(elements[..n])
    decreases Rest(depth), 2, n
  {
    if n > 0 {
      ItemsReadBack(fold, mem, key, items, elements, n - 1, depth);
      ReadsBack(fold, mem, key, items[n - 1], elements[n - 1], depth);
      assert elements[..n] == elements[..n - 1] + [elements[n - 1]];
    }
  }

  /** Safe JSON sanitizes to itself, whatever order its fields come in. */
  lemma {:induction false} ReadsBack(fold: string -> string, mem: Memory, key: string, value: Value, j: Json, depth: nat)
    requires Presents(mem, value, j) && SafeJson(fold, key, j, depth)
    ensures SafeValue(fold, mem, key, value, depth) == Success(j)
    decreases Rest(depth), 1, 0
  {
    match j
    case JObject(fields) => FieldsReadBack(fold, mem, mem[value.ref].entries, j, depth + 1);
    case JArray(elements) =>
      ItemsReadBack(fold, mem, key, mem[value.ref].items, elements, |elements|, depth + 1);
      assert elements[..|elements|] == elements;
    case _ =>
  }

  lemma {:induction false} FieldsReadBack(fold: string -> string, mem: Memory, entries: seq<Entry>, j: Json, depth: nat)
    requires j.JObject? && PresentsFields(mem, entries, j) && depth <= MAX_DEPTH && SafeFields(fold, j.fields, depth)
    ensures SafeMetadata(fold, mem, entries, depth) == Success(j.fields)
    decreases Rest(depth), 3, 0
  {
    EntriesReadBack(fold, mem, entries, j, |entries|, depth);
    AllFields(entries, j.fields);
  }

  /** Writing an accepted event to a record and reading it back preserves its metadata: the
      sanitizer's output, presented in any order, is a fixed point. */
  lemma RecordRoundTrip(fold: string -> string, mem: Memory, metadata: seq<Entry>, later: Memory, stored: seq<Entry>)
    requires SafeMetadata(fold, mem, metadata, 0).Success?
    requires PresentsFields(later, stored, JObject(SafeMetadata(fold, mem, metadata, 0).value))
    ensures SafeMetadata(fold, later, stored, 0) == SafeMetadata(fold, mem, metadata, 0)
  {
    AcceptedMetadataIsSafe(fold, mem, metadata, 0);
    FieldsReadBack(fold, later, stored, JObject(SafeMetadata(fold, mem, metadata, 0).value), 0);
  }

  /** Only safe JSON survives reading back: the fixed points are exactly the safe values. */
  lemma FixedPointsAreSafe(fold: string -> string, mem: Memory, key: string, value: Value, j: Json, depth: nat)
    requires Presents(mem, value, j)
    ensures SafeValue(fold, mem, key, value, depth) == Success(j) <==> SafeJson(fold, key, j, depth)
  {
    if SafeValue(fold, mem, key, value, depth) == Success(j) { ValueIsSafe(fold, mem, key, value, depth); }
    if SafeJson(fold, key, j, depth) { ReadsBack(fold, mem, key, value, j, depth); }
  }
}

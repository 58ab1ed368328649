/** Exactly which metadata is accepted, and that what is stored says what was passed
    (domain/audit.py). */
module AuditAcceptance {
  import opened Common
  import opened AuditMetadata

  // ---------- acceptance ----------

  /** A key of 1 to 64 characters. */
  predicate FittingKey(key: string) {
    key != "" && |key| <= 64
  }

  /** Nothing about the value, or anything inside it, is refused: at most four levels, 32 keys
      or items and 512 characters, no secret-like key, no naive timestamp, no other type. */
  ghost predicate Acceptable(fold: string -> string, mem: Memory, key: string, value: Value, depth: nat)
    decreases Rest(depth), 0
  {
    && !SecretLike(fold, key)
    && match value
       case Null => true
       case Scalar(_) => true
       case Text(s) => |s| <= 512
       case Uuid(_) => true
       case Timestamp(aware, _) => aware
       case Container(ref) => ref in mem && depth < 4 && AcceptableInside(fold, mem, key, mem[ref], depth + 1)
       case Unsupported => false
  }

  ghost predicate AcceptableInside(fold: string -> string, mem: Memory, key: string, node: Node, depth: nat)
    requires depth <= 4
    decreases Rest(depth), 2
  {
    match node
    case Mapping(entries) => AcceptableEntries(fold, mem, entries, depth)
    case Listing(items) => |items| <= 32 && forall i :: 0 <= i < |items| ==> Acceptable(fold, mem, key, items[i], depth)
  }

  ghost predicate AcceptableEntries(fold: string -> string, mem: Memory, entries: seq<Entry>, depth: nat)
    decreases Rest(depth), 1
  {
    |entries| <= 32
    && forall i :: 0 <= i < |entries| ==> FittingKey(entries[i].key) && Acceptable(fold, mem, entries[i].key, entries[i].value, depth)
  }

  lemma {:induction false} ValueAccepted(fold: string -> string, mem: Memory, key: string, value: Value, depth: nat)
    requires depth <= 4
    ensures SafeValue(fold, mem, key, value, depth).Success? <==> Acceptable(fold, mem, key, value, depth)
    decreases Rest(depth), 1, 0
  {
    if value.Container? && value.ref in mem && depth < 4 {
      match mem[value.ref]
      case Mapping(entries) =>
        EntriesAccepted(fold, mem, entries, |entries|, depth + 1);
        assert SafeMetadata(fold, mem, entries, depth + 1).Success? <==> AcceptableEntries(fold, mem, entries, depth + 1);
        assert AcceptableInside(fold, mem, key, mem[value.ref], depth + 1) <==> AcceptableEntries(fold, mem, entries, depth + 1);
      case Listing(items) => ItemsAccepted(fold, mem, key, items, |items|, depth + 1);
    }
  }

  lemma {:induction false} EntriesAccepted(fold: string -> string, mem: Memory, entries: seq<Entry>, n: nat, depth: nat)
    requires n <= |entries| && depth <= 4
    ensures SafeEntries(fold, mem, entries, n, depth).Success?
      <==> forall i :: 0 <= i < n ==> FittingKey(entries[i].key) && Acceptable(fold, mem, entries[i].key, entries[i].value, depth)
    decreases Rest(depth), 2, n
  {
    if n > 0 {
      EntriesAccepted(fold, mem, entries, n - 1, depth);
      ValueAccepted(fold, mem, entries[n - 1].key, entries[n - 1].value, depth);
    }
  }

  lemma {:induction false} ItemsAccepted(fold: string -> string, mem: Memory, key: string, items: seq<Value>, n: nat, depth: nat)
    requires n <= |items| && depth <= 4
    ensures SafeItems(fold, mem, key, items, n, depth).Success? <==> forall i :: 0 <= i < n ==> Acceptable(fold, mem, key, items[i], depth)
    decreases Rest(depth), 2, n
  {
    if n > 0 {
      ItemsAccepted(fold, mem, key, items, n - 1, depth);
      ValueAccepted(fold, mem, key, items[n - 1], depth);
    }
  }

  /** Exact condition: metadata is accepted if and only if nothing in it is refused. */
  lemma AcceptedIff(fold: string -> string, mem: Memory, entries: seq<Entry>)
    ensures SafeMetadata(fold, mem, entries, 0).Success? <==> AcceptableEntries(fold, mem, entries, 0)
  {
    EntriesAccepted(fold, mem, entries, |entries|, 0);
  }

  /** What makes a key secret-like, whatever surrounds it. */
  lemma SecretLikeIff(fold: string -> string, key: string)
    ensures SecretLike(fold, key) <==>
      || Contains(fold(key), "authorization") || Contains(fold(key), "cookie") || Contains(fold(key), "csrf")
      || Contains(fold(key), "digest") || Contains(fold(key), "hash") || Contains(fold(key), "password")
      || Contains(fold(key), "secret") || Contains(fold(key), "token")
  {
    assert SECRET_PARTS[0] == "authorization" && SECRET_PARTS[1] == "cookie" && SECRET_PARTS[2] == "csrf" && SECRET_PARTS[3] == "digest";
    assert SECRET_PARTS[4] == "hash" && SECRET_PARTS[5] == "password" && SECRET_PARTS[6] == "secret" && SECRET_PARTS[7] == "token";
  }

  // ---------- meaning ----------

  ghost predicate LastWithKey(entries: seq<Entry>, key: string, i: int) {
    0 <= i < |entries| && entries[i].key == key && forall j :: i < j < |entries| ==> entries[j].key != key
  }

  /** The JSON says what was passed: identifiers and timestamps by their texts, a list element by
      element, a mapping key by key, the last entry of a repeated key. */
  ghost predicate Denotes(mem: Memory, value: Value, j: Json)
    decreases j, 1
  {
    match value
    case Null => j == JNull
    case Scalar(n) => j == JScalar(n)
    case Text(s) => j == JText(s)
    case Uuid(u) => j == JText(u)
    case Timestamp(_, iso) => j == JText(iso)
    case Container(ref) =>
      ref in mem
      && (match mem[ref]
          case Mapping(entries) => j.JObject? && DenotesFields(mem, entries, j)
          case Listing(items) =>
            j.JArray? && |items| == |j.elements| && forall i :: 0 <= i < |items| ==> Denotes(mem, items[i], j.elements[i]))
    case Unsupported => false
  }

  ghost predicate DenotesFields(mem: Memory, entries: seq<Entry>, j: Json)
    requires j.JObject?
    decreases j, 0
  {
    && (forall i :: 0 <= i < |entries| ==> entries[i].key in j.fields)
    && (forall k :: k in j.fields ==> exists i :: LastWithKey(entries, k, i) && Denotes(mem, entries[i].value, j.fields[k]))
  }

  lemma {:induction false} StoredValueDenotes(fold: string -> string, mem: Memory, key: string, value: Value, depth: nat)
    requires SafeValue(fold, mem, key, value, depth).Success?
    ensures Denotes(mem, value, SafeValue(fold, mem, key, value, depth).value)
    decreases Rest(depth), 1, 0
  {
    if value.Container? {
      match mem[value.ref]
      case Mapping(entries) =>
        StoredFieldsDenote(fold, mem, entries, |entries|, depth + 1);
        assert entries[..|entries|] == entries;
      case Listing(items) => StoredItemsDenote(fold, mem, key, items, |items|, depth + 1);
    }
  }

  lemma NewLast(entries: seq<Entry>, n: nat)
    requires 0 < n <= |entries|
    ensures LastWithKey(entries[..n], entries[n - 1].key, n - 1)
    ensures forall k, i :: LastWithKey(entries[..n - 1], k, i) && k != entries[n - 1].key ==> LastWithKey(entries[..n], k, i)
  {
    forall k, i | LastWithKey(entries[..n - 1], k, i) && k != entries[n - 1].key ensures LastWithKey(entries[..n], k, i) {
      forall j | i < j < n ensures entries[..n][j].key != k { assert j < n - 1 ==> entries[..n][j] == entries[..n - 1][j]; }
    }
  }

  lemma {:induction false} StoredFieldsDenote(fold: string -> string, mem: Memory, entries: seq<Entry>, n: nat, depth: nat)
    requires n <= |entries| && SafeEntries(fold, mem, entries, n, depth).Success?
    ensures DenotesFields(mem, entries[..n], JObject(SafeEntries(fold, mem, entries, n, depth).value))
    decreases Rest(depth), 2, n
  {
    if n > 0 {
      StoredFieldsDenote(fold, mem, entries, n - 1, depth);
      StoredValueDenotes(fold, mem, entries[n - 1].key, entries[n - 1].value, depth);
      FieldAdded(mem, entries, n, SafeEntries(fold, mem, entries, n - 1, depth).value,
                 SafeValue(fold, mem, entries[n - 1].key, entries[n - 1].value, depth).value);
    }
  }

  lemma FieldAdded(mem: Memory, entries: seq<Entry>, n: nat, fields: map<string, Json>, j: Json)
    requires 0 < n <= |entries| && DenotesFields(mem, entries[..n - 1], JObject(fields)) && Denotes(mem, entries[n - 1].value, j)
    ensures DenotesFields(mem, entries[..n], JObject(fields[entries[n - 1].key := j]))
  {
    NewLast(entries, n);
    var key := entries[n - 1].key;
    var more := fields[key := j];
    forall i | 0 <= i < n ensures entries[..n][i].key in more { assert i < n - 1 ==> entries[..n - 1][i] == entries[i]; }
    forall k | k in more ensures exists i :: LastWithKey(entries[..n], k, i) && Denotes(mem, entries[..n][i].value, more[k]) {
      if k == key {
        assert LastWithKey(entries[..n], k, n - 1) && entries[..n][n - 1] == entries[n - 1];
      } else {
        var i :| LastWithKey(entries[..n - 1], k, i) && Denotes(mem, entries[..n - 1][i].value, fields[k]);
        assert LastWithKey(entries[..n], k, i) && entries[..n][i] == entries[..n - 1][i];
      }
    }
  }

  lemma {:induction false} StoredItemsDenote(fold: string -> string, mem: Memory, key: string, items: seq<Value>, n: nat, depth: nat)
    requires n <= |items| && SafeItems(fold, mem, key, items, n, depth).Success?
    ensures var js := SafeItems(fold, mem, key, items, n, depth).value;
      |js| == n && forall i :: 0 <= i < n ==> Denotes(mem, items[i], js[i])
    decreases Rest(depth), 2, n
  {
    if n > 0 {
      StoredItemsDenote(fold, mem, key, items, n - 1, depth);
      StoredValueDenotes(fold, mem, key, items[n - 1], depth);
    }
  }

  /** Accepted metadata is stored as it was meant: nothing is lost, renamed or replaced. */
  lemma StoredMetadataDenotes(fold: string -> string, mem: Memory, entries: seq<Entry>)
    requires SafeMetadata(fold, mem, entries, 0).Success?
    ensures DenotesFields(mem, entries, JObject(SafeMetadata(fold, mem, entries, 0).value))
  {
    StoredFieldsDenote(fold, mem, entries, |entries|, 0);
    assert entries[..|entries|] == entries;
  }
}

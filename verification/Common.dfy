/** Vocabulary shared by every component: optional values, results and a few
    facts about finite sets and sequences. */
module Common {

  /** Identifiers are UUIDs in the source; only equality and order are used. */
  type Uuid = nat

  /** Timestamps are UTC instants; every source timestamp is normalized to UTC. */
  type Instant = int

  datatype Option<+T> = None | Some(value: T)

  datatype Result<+T, +E> = Success(value: T) | Failure(error: E)

  predicate NoDuplicates<T(==)>(s: seq<T>) {
    forall i, j :: 0 <= i < j < |s| ==> s[i] != s[j]
  }

  ghost function Elements<T>(s: seq<T>): set<T> {
    set x | x in s
  }

  /** How often `x` occurs in `s`. */
  ghost function Count<T>(s: seq<T>, x: T): nat {
    if s == [] then 0 else (if s[|s| - 1] == x then 1 else 0) + Count(s[..|s| - 1], x)
  }

  lemma CountAppend<T>(s: seq<T>, y: T, x: T)
    ensures Count(s + [y], x) == Count(s, x) + (if y == x then 1 else 0)
  {
    assert (s + [y])[..|s|] == s;
  }

  lemma {:induction false} NoDuplicatesCount<T>(s: seq<T>, x: T)
    requires NoDuplicates(s)
    ensures Count(s, x) == if x in s then 1 else 0
  {
    if s != [] {
      var t := s[..|s| - 1];
      NoDuplicatesCount(t, x);
      assert s == t + [s[|s| - 1]];
      assert x in s <==> x in t || x == s[|s| - 1];
      assert x == s[|s| - 1] ==> forall i :: 0 <= i < |t| ==> t[i] != x;
    }
  }

  lemma {:induction false} DistinctSize<T>(s: seq<T>)
    requires NoDuplicates(s)
    ensures |Elements(s)| == |s|
  {
    if s != [] {
      var t := s[..|s| - 1];
      var last := s[|s| - 1];
      DistinctSize(t);
      assert forall i :: 0 <= i < |t| ==> t[i] != last;
      assert last !in Elements(t);
      assert s == t + [last];
      assert Elements(s) == Elements(t) + {last};
    }
  }

  /** A finite set of naturals never exhausts them. */
  lemma {:induction false} FreshNat(s: set<nat>) returns (n: nat)
    ensures n !in s
    ensures forall m :: m in s ==> m < n
  {
    if s == {} {
      n := 0;
    } else {
      var x :| x in s;
      var k := FreshNat(s - {x});
      n := if x < k then k else x + 1;
      forall m | m in s ensures m < n {
        if m != x { assert m in s - {x}; }
      }
    }
  }
}

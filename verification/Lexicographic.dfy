/** The lexicographic order of sequences, over any elements that a key puts in order. */
module Lexicographic {

  predicate Less<T(==)>(key: T -> int, a: seq<T>, b: seq<T>) {
    if b == [] then false
    else if a == [] then true
    else if a[0] != b[0] then key(a[0]) < key(b[0])
    else Less(key, a[1..], b[1..])
  }

  lemma {:induction false} Transitive<T>(key: T -> int, a: seq<T>, b: seq<T>, c: seq<T>)
    requires forall x, y :: key(x) == key(y) ==> x == y
    requires Less(key, a, b) && Less(key, b, c)
    ensures Less(key, a, c)
  {
    if a != [] && a[0] == b[0] == c[0] { Transitive(key, a[1..], b[1..], c[1..]); }
  }

  lemma {:induction false} Trichotomy<T>(key: T -> int, a: seq<T>, b: seq<T>)
    requires forall x, y :: key(x) == key(y) ==> x == y
    ensures Less(key, a, b) || a == b || Less(key, b, a)
    ensures !(Less(key, a, b) && (a == b || Less(key, b, a)))
  {
    if a != [] && b != [] && a[0] == b[0] {
      Trichotomy(key, a[1..], b[1..]);
      assert a == [a[0]] + a[1..] && b == [b[0]] + b[1..];
    }
  }
}

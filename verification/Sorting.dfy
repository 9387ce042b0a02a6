/** The descending sorts of the libraries, as functions: by a score, equal scores in their first order. */
module Sorting {

  ghost predicate Descending<T(!new)>(s: seq<T>, score: T -> real) {
    forall i, j :: 0 <= i < j < |s| ==> score(s[i]) >= score(s[j])
  }

  /** Into a descending list, behind everything that scores no less. */
  function Insert<T>(s: seq<T>, x: T, score: T -> real): seq<T> {
    if s == [] then [x]
    else if score(s[|s| - 1]) >= score(x) then s + [x]
    else Insert(s[..|s| - 1], x, score) + [s[|s| - 1]]
  }

  function Sort<T>(s: seq<T>, score: T -> real): seq<T> {
    if s == [] then [] else Insert(Sort(s[..|s| - 1], score), s[|s| - 1], score)
  }

  /** The entries of one score, in order. */
  function Of<T>(s: seq<T>, score: T -> real, value: real): seq<T> {
    if s == [] then []
    else Of(s[..|s| - 1], score, value) + if score(s[|s| - 1]) == value then [s[|s| - 1]] else []
  }

  lemma SameMembers<T>(a: seq<T>, b: seq<T>)
    requires multiset(a) == multiset(b)
    ensures forall x :: x in a <==> x in b
  {
    forall x ensures x in a <==> x in b {
      assert x in a <==> x in multiset(a);
      assert x in b <==> x in multiset(b);
    }
  }

  lemma {:induction false} InsertPermutes<T>(s: seq<T>, x: T, score: T -> real)
    ensures multiset(Insert(s, x, score)) == multiset(s + [x])
    decreases |s|
  {
    if s == [] {
      assert s + [x] == [x];
    } else if score(s[|s| - 1]) < score(x) {
      var front, last := s[..|s| - 1], s[|s| - 1];
      InsertPermutes(front, x, score);
      assert s == front + [last];
    }
  }

  lemma DescendingAppend<T(!new)>(s: seq<T>, last: T, score: T -> real)
    requires Descending(s, score) && forall r :: r in s ==> score(r) >= score(last)
    ensures Descending(s + [last], score)
  {
  }

  lemma LastIsLeast<T(!new)>(s: seq<T>, score: T -> real)
    requires Descending(s, score) && s != []
    ensures Descending(s[..|s| - 1], score)
    ensures forall r :: r in s ==> score(r) >= score(s[|s| - 1])
  {
  }

  lemma OneDescends<T(!new)>(x: T, score: T -> real)
    ensures Descending([x], score)
  {
  }

  lemma {:induction false} InsertDescends<T(!new)>(s: seq<T>, x: T, score: T -> real)
    requires Descending(s, score)
    ensures Descending(Insert(s, x, score), score)
    decreases |s|
  {
    hide Descending;
    if s == [] {
      OneDescends(x, score);
    } else {
      var front, last := s[..|s| - 1], s[|s| - 1];
      LastIsLeast(s, score);
      if score(last) >= score(x) {
        DescendingAppend(s, x, score);
      } else {
        InsertDescends(front, x, score);
        InsertPermutes(front, x, score);
        SameMembers(Insert(front, x, score), front + [x]);
        assert forall r :: r in front ==> r in s;
        DescendingAppend(Insert(front, x, score), last, score);
      }
    }
  }

  lemma {:induction false} InsertIsStable<T(!new)>(s: seq<T>, x: T, score: T -> real, value: real)
    ensures Of(Insert(s, x, score), score, value) == Of(s, score, value) + if score(x) == value then [x] else []
    decreases |s|
  {
    if s == [] {
      assert [x][..0] == [];
    } else {
      var front, last := s[..|s| - 1], s[|s| - 1];
      hide Of;
      assert s == front + [last];
      OfAppend(s, x, score, value);
      OfAppend(front, last, score, value);
      if score(last) < score(x) {
        InsertIsStable(front, x, score, value);
        OfAppend(Insert(front, x, score), last, score, value);
        assert Insert(s, x, score) == Insert(front, x, score) + [last];
        var same := Of(front, score, value);
        assert same + [] == same && same + [x] + [] == same + [x] && same + [last] + [] == same + [last];
      } else {
        assert Insert(s, x, score) == s + [x];
      }
    }
  }

  lemma OfAppend<T(!new)>(s: seq<T>, x: T, score: T -> real, value: real)
    ensures Of(s + [x], score, value) == Of(s, score, value) + if score(x) == value then [x] else []
  {
    assert (s + [x])[..|s|] == s;
  }

  /** The sort yields the same entries, by falling score, and equal scores in their first order. */
  lemma {:induction false} SortIsStable<T(!new)>(s: seq<T>, score: T -> real, value: real)
    ensures Descending(Sort(s, score), score) && multiset(Sort(s, score)) == multiset(s)
    ensures Of(Sort(s, score), score, value) == Of(s, score, value)
  {
    if s != [] {
      var front, last := s[..|s| - 1], s[|s| - 1];
      assert s == front + [last];
      SortIsStable(front, score, value);
      InsertDescends(Sort(front, score), last, score);
      InsertPermutes(Sort(front, score), last, score);
      InsertIsStable(Sort(front, score), last, score, value);
    }
  }

  lemma {:induction false} OnceEach<T>(s: seq<T>, x: T)
    requires forall i, j :: 0 <= i < j < |s| ==> s[i] != s[j]
    ensures multiset(s)[x] == if x in s then 1 else 0
  {
    if s != [] {
      var front, last := s[..|s| - 1], s[|s| - 1];
      assert s == front + [last];
      OnceEach(front, x);
    }
  }

  lemma SameMembersOnce<T>(a: seq<T>, b: seq<T>)
    requires forall i, j :: 0 <= i < j < |a| ==> a[i] != a[j]
    requires forall i, j :: 0 <= i < j < |b| ==> b[i] != b[j]
    requires forall x :: x in a <==> x in b
    ensures multiset(a) == multiset(b)
  {
    forall x ensures multiset(a)[x] == multiset(b)[x] {
      OnceEach(a, x);
      OnceEach(b, x);
    }
  }

  lemma TwiceCounts<T>(s: seq<T>, i: nat, j: nat)
    requires i < j < |s|
    ensures s[i] == s[j] ==> multiset(s)[s[i]] >= 2
  {
    assert s == s[..j] + s[j..];
    assert s[..j][i] == s[i] && s[j..][0] == s[j];
    assert s[i] in multiset(s[..j]) && s[j] in multiset(s[j..]);
  }

  /** Two entries of a rearrangement of a sequence whose entries occur once are different. */
  lemma PermutedOnce<T>(a: seq<T>, b: seq<T>, i: nat, j: nat)
    requires multiset(a) == multiset(b) && i < j < |b|
    requires forall i, j :: 0 <= i < j < |a| ==> a[i] != a[j]
    ensures b[i] != b[j] && b[i] in a && b[j] in a
  {
    SameMembers(a, b);
    OnceEach(a, b[i]);
    TwiceCounts(b, i, j);
  }
}

/** Collecting the members of a set in the order of their keys. */
module Ranking {
  import Lexicographic

  ghost predicate Ranked<T(!new)>(key: T -> seq<int>, s: seq<T>) {
    forall i, j :: 0 <= i < j < |s| ==> Lexicographic.Less(key(s[i]), key(s[j]))
  }

  ghost predicate SameMembers<T(!new)>(s: seq<T>, items: set<T>) { forall x: T :: x in s <==> x in items }

  ghost predicate DistinctKeys<T(!new)>(key: T -> seq<int>, items: set<T>) {
    forall x, y :: x in items && y in items && key(x) == key(y) ==> x == y
  }

  function InsertByKey<T>(key: T -> seq<int>, x: T, s: seq<T>): (r: seq<T>)
    ensures |r| == |s| + 1
  {
    if s == [] || Lexicographic.Less(key(x), key(s[0])) then [x] + s else [s[0]] + InsertByKey(key, x, s[1..])
  }

  lemma {:induction false} InsertMembers<T(!new)>(key: T -> seq<int>, x: T, s: seq<T>)
    ensures forall y: T :: y in InsertByKey(key, x, s) <==> y == x || y in s
  {
    if s != [] && !Lexicographic.Less(key(x), key(s[0])) {
      InsertMembers(key, x, s[1..]);
      assert s == [s[0]] + s[1..];
    }
  }

  lemma {:induction false} InsertRanked<T(!new)>(key: T -> seq<int>, x: T, s: seq<T>)
    requires Ranked(key, s) && forall i :: 0 <= i < |s| ==> key(s[i]) != key(x)
    ensures Ranked(key, InsertByKey(key, x, s))
  {
    if s == [] {
    } else if Lexicographic.Less(key(x), key(s[0])) {
      forall i | 0 <= i < |s|
        ensures Lexicographic.Less(key(x), key(s[i]))
      {
        if i > 0 {
          Lexicographic.Transitive(key(x), key(s[0]), key(s[i]));
        }
      }
    } else {
      InsertRanked(key, x, s[1..]);
      InsertMembers(key, x, s[1..]);
      Lexicographic.Total(key(x), key(s[0]));
      var rest := InsertByKey(key, x, s[1..]);
      forall i | 0 <= i < |rest|
        ensures Lexicographic.Less(key(s[0]), key(rest[i]))
      {
        assert rest[i] in rest;
      }
    }
  }

  /** The members of a set, each once, by ascending key. */
  method Rank<T(!new, ==)>(key: T -> seq<int>, items: set<T>) returns (s: seq<T>)
    requires DistinctKeys(key, items)
    ensures Ranked(key, s) && SameMembers(s, items)
  {
    s := [];
    var todo := items;
    while todo != {}
      invariant todo <= items && Ranked(key, s) && SameMembers(s, items - todo)
      decreases todo
    {
      var x :| x in todo;
      forall i | 0 <= i < |s|
        ensures key(s[i]) != key(x)
      {
        assert s[i] in s;
      }
      InsertRanked(key, x, s);
      InsertMembers(key, x, s);
      s := InsertByKey(key, x, s);
      todo := todo - {x};
    }
    assert items - todo == items;
  }

  lemma FirstIsLeast<T(!new)>(key: T -> seq<int>, s: seq<T>, x: T)
    requires Ranked(key, s) && s != [] && x in s
    ensures x == s[0] || Lexicographic.Less(key(s[0]), key(x))
  {
    var i :| 0 <= i < |s| && s[i] == x;
  }

  lemma NotLess<T>(key: T -> seq<int>, x: T, y: T)
    requires Lexicographic.Less(key(x), key(y))
    ensures !Lexicographic.Less(key(y), key(x)) && x != y
  {
    Lexicographic.Irreflexive(key(x));
    if Lexicographic.Less(key(y), key(x)) {
      Lexicographic.Transitive(key(x), key(y), key(x));
    }
  }

  lemma TailMembers<T(!new)>(key: T -> seq<int>, s: seq<T>, x: T)
    requires Ranked(key, s) && s != []
    ensures x in s[1..] <==> x in s && x != s[0]
  {
    assert s == [s[0]] + s[1..];
    if x in s[1..] {
      var i :| 0 <= i < |s[1..]| && s[1..][i] == x;
      assert x == s[i + 1];
      NotLess(key, s[0], s[i + 1]);
    }
  }

  /** A ranking is determined by its members. */
  lemma {:induction false} RankingIsUnique<T(!new)>(key: T -> seq<int>, a: seq<T>, b: seq<T>)
    requires Ranked(key, a) && Ranked(key, b) && forall x: T :: x in a <==> x in b
    ensures a == b
  {
    assert b != [] ==> b[0] in b;
    if a != [] {
      assert a[0] in a && a[0] in b;
      assert b[0] in b && b[0] in a;
      FirstIsLeast(key, a, b[0]);
      FirstIsLeast(key, b, a[0]);
      if a[0] != b[0] {
        NotLess(key, a[0], b[0]);
        assert false;
      }
      forall x: T
        ensures x in a[1..] <==> x in b[1..]
      {
        TailMembers(key, a, x);
        TailMembers(key, b, x);
      }
      RankingIsUnique(key, a[1..], b[1..]);
      assert a == [a[0]] + a[1..] && b == [b[0]] + b[1..];
    }
  }
}

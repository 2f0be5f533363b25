/** Facts about lists of ids (integers) that the no-repeat argument rests on. */
module Sequences {

  /** No value occurs twice in `s`. */
  predicate NoDuplicates<T(==)>(s: seq<T>) {
    forall i, j :: 0 <= i < j < |s| ==> s[i] != s[j]
  }

  /** `sub` keeps some of the elements of `s`, in their original order. */
  ghost predicate IsSubsequence<T>(sub: seq<T>, s: seq<T>)
    decreases |s|
  {
    if sub == [] then true
    else if s == [] then false
    else if sub[0] == s[0] then IsSubsequence(sub[1..], s[1..])
    else IsSubsequence(sub, s[1..])
  }

  lemma AppendAssociative(a: seq<int>, b: seq<int>, c: seq<int>)
    ensures (a + b) + c == a + (b + c)
  {
  }

  /** The set of values that occur in `s`. */
  ghost function Elems(s: seq<int>): set<int> {
    set x | x in s
  }

  lemma {:induction false} ElemsCardinality(s: seq<int>)
    ensures |Elems(s)| <= |s|
    ensures NoDuplicates(s) ==> |Elems(s)| == |s|
  {
    if s != [] {
      ElemsCardinality(s[1..]);
      assert Elems(s) == {s[0]} + Elems(s[1..]);
      if NoDuplicates(s) {
        assert s[0] !in Elems(s[1..]) by {
          forall k | 0 <= k < |s[1..]| ensures s[1..][k] != s[0] {
            assert s[1..][k] == s[k + 1];
          }
        }
      }
    }
  }

  /** A duplicate-free list whose values all occur in `t` is no longer than `t`. */
  lemma DistinctWithin(s: seq<int>, t: seq<int>)
    requires NoDuplicates(s)
    requires forall x :: x in s ==> x in t
    ensures |s| <= |t|
  {
    ElemsCardinality(s);
    ElemsCardinality(t);
    assert Elems(s) <= Elems(t);
    SubsetCardinality(Elems(s), Elems(t));
  }

  lemma SubsetCardinality(a: set<int>, b: set<int>)
    requires a <= b
    ensures |a| <= |b|
    ensures |a| == |b| ==> a == b
  {
    assert b == a + (b - a);
  }

  /** The position in `t` of a value that `s` misses. */
  lemma MissedIndex(s: seq<int>, t: seq<int>) returns (i: nat)
    requires NoDuplicates(s) && NoDuplicates(t)
    requires forall x :: x in s ==> x in t
    requires |s| < |t|
    ensures i < |t| && t[i] !in s
  {
    MissesSome(s, t);
    var x :| x in t && x !in s;
    i :| i < |t| && t[i] == x;
  }

  /** A duplicate-free list that is shorter than the duplicate-free `t`, and drawn from it, misses some value of `t`. */
  lemma MissesSome(s: seq<int>, t: seq<int>)
    requires NoDuplicates(s) && NoDuplicates(t)
    requires forall x :: x in s ==> x in t
    requires |s| < |t|
    ensures exists x :: x in t && x !in s
  {
    ElemsCardinality(s);
    ElemsCardinality(t);
    if forall x :: x in t ==> x in s {
      assert Elems(t) <= Elems(s);
      SubsetCardinality(Elems(t), Elems(s));
      assert false;
    }
  }

  lemma {:induction false} MultisetOfDistinct(s: seq<int>)
    requires NoDuplicates(s)
    ensures multiset(s) == multiset(Elems(s))
  {
    if s != [] {
      var rest := s[1..];
      assert s == [s[0]] + rest;
      TailNoDuplicates(s);
      MultisetOfDistinct(rest);
      HeadNotInTail(s);
      assert Elems(s) == {s[0]} + Elems(rest);
      assert multiset(Elems(s)) == multiset{s[0]} + multiset(Elems(rest));
    }
  }

  lemma TailNoDuplicates(s: seq<int>)
    requires s != [] && NoDuplicates(s)
    ensures NoDuplicates(s[1..])
  {
    var rest := s[1..];
    forall i, j | 0 <= i < j < |rest| ensures rest[i] != rest[j] {
      assert rest[i] == s[i + 1] && rest[j] == s[j + 1];
    }
  }

  lemma HeadNotInTail(s: seq<int>)
    requires s != [] && NoDuplicates(s)
    ensures s[0] !in Elems(s[1..])
  {
    var rest := s[1..];
    forall k | 0 <= k < |rest| ensures rest[k] != s[0] {
      assert rest[k] == s[k + 1];
    }
  }

  /** Two duplicate-free lists of the same length, one drawn from the other, hold the same values once each. */
  lemma SameValues(s: seq<int>, t: seq<int>)
    requires NoDuplicates(s) && NoDuplicates(t)
    requires forall x :: x in s ==> x in t
    requires |s| == |t|
    ensures multiset(s) == multiset(t)
  {
    ElemsCardinality(s);
    ElemsCardinality(t);
    assert Elems(s) <= Elems(t);
    SubsetCardinality(Elems(s), Elems(t));
    MultisetOfDistinct(s);
    MultisetOfDistinct(t);
  }
}

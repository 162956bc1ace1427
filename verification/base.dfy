/** The optional value the model uses wherever the Java code can produce `null`. */
module Options {

  datatype Option<+T> = None | Some(value: T)
}

/**
 Sequence and set helpers shared by every stage: the ascending enumeration that
 stands in for iterating a Java hash collection, and the list operations of
 `java.util.ArrayList` the pruning code relies on.
 */
module Seqs {

  /** No element occurs twice. */
  predicate Distinct<T(==)>(s: seq<T>) {
    forall i, j | 0 <= i < j < |s| :: s[i] != s[j]
  }

  /** The elements of a sequence, as a set. */
  function Elems<T(==)>(s: seq<T>): set<T> {
    set x | x in s
  }

  /** `m` is the least element of `s`. */
  predicate IsMin(m: nat, s: set<nat>) {
    m in s && forall x | x in s :: m <= x
  }

  lemma {:induction false} MinExists(s: set<nat>)
    requires s != {}
    ensures exists m :: IsMin(m, s)
    decreases |s|
  {
    var y :| y in s;
    var t := s - {y};
    if t == {} {
      assert s == {y};
      assert IsMin(y, s);
    } else {
      MinExists(t);
      var m :| IsMin(m, t);
      assert forall x | x in s :: x == y || x in t;
      if y < m {
        assert IsMin(y, s);
      } else {
        assert IsMin(m, s);
      }
    }
  }

  /** The least element of a non-empty set of naturals. */
  function Min(s: set<nat>): (m: nat)
    requires s != {}
    ensures IsMin(m, s)
  {
    MinExists(s);
    var m :| IsMin(m, s);
    m
  }

  /** A number above every element of `s`: an id no element uses. */
  function NextId(s: set<nat>): (r: nat)
    ensures forall x | x in s :: x < r
    decreases |s|
  {
    if s == {} then 0
    else
      var m := Min(s);
      var above := NextId(s - {m});
      assert forall x | x in s :: x == m || x in s - {m};
      if above < m + 1 then m + 1 else above
  }

  /** Strictly increasing. */
  predicate Ascending(s: seq<nat>) {
    forall i, j | 0 <= i < j < |s| :: s[i] < s[j]
  }

  /** Putting an element below all others in front keeps a sequence ascending. */
  lemma ConsAscending(m: nat, rest: seq<nat>)
    requires Ascending(rest)
    requires forall x | x in rest :: m < x
    ensures Ascending([m] + rest)
    ensures Distinct([m] + rest)
    ensures forall x :: x in [m] + rest <==> x == m || x in rest
  {
    var r := [m] + rest;
    forall i, j | 0 <= i < j < |r|
      ensures r[i] < r[j]
    {
      assert r[j] == rest[j - 1] && rest[j - 1] in rest;
      if i > 0 {
        assert r[i] == rest[i - 1];
      }
    }
  }

  /**
   The elements of `s` in ascending order. The model iterates every Java hash
   collection in this order; only order-independent facts are stated about it.
   */
  function Enumerate(s: set<nat>): (r: seq<nat>)
    ensures forall x :: x in r <==> x in s
    ensures Ascending(r)
    ensures Distinct(r)
    ensures |r| == |s|
    decreases |s|
  {
    if s == {} then []
    else
      var m := Min(s);
      var t := s - {m};
      assert |t| == |s| - 1;
      var rest := Enumerate(t);
      assert forall x | x in rest :: m < x;
      ConsAscending(m, rest);
      [m] + rest
  }

  /** `ArrayList.remove(Object)`: drops the first occurrence of `x`, if any. */
  function RemoveFirst(s: seq<nat>, x: nat): (r: seq<nat>)
    ensures multiset(r) == multiset(s) - multiset{x}
  {
    if s == [] then []
    else if s[0] == x then
      assert s == [s[0]] + s[1..];
      s[1..]
    else
      assert s == [s[0]] + s[1..];
      [s[0]] + RemoveFirst(s[1..], x)
  }

  /**
   The elements of `s` that satisfy `p`, in their order (`removeIf` of the
   complement, or `removeAll` of the elements that fail `p`).
   */
  function Filter(s: seq<nat>, p: nat -> bool): (r: seq<nat>)
    ensures forall x :: multiset(r)[x] == if p(x) then multiset(s)[x] else 0
    ensures forall x :: x in r <==> x in s && p(x)
    ensures |r| <= |s|
    ensures forall x | x in s && !p(x) :: |r| < |s|
  {
    if s == [] then []
    else
      assert s == [s[0]] + s[1..];
      var rest := Filter(s[1..], p);
      if p(s[0]) then [s[0]] + rest else rest
  }

  /** The tail of a sequence without repetitions has none either. */
  lemma DistinctTail<T>(s: seq<T>)
    requires s != [] && Distinct(s)
    ensures Distinct(s[1..])
    ensures forall x :: x in s <==> x == s[0] || x in s[1..]
    ensures s[0] !in s[1..]
  {
    assert s == [s[0]] + s[1..];
    forall i, j | 0 <= i < j < |s[1..]|
      ensures s[1..][i] != s[1..][j]
    {
      assert s[1..][i] == s[i + 1] && s[1..][j] == s[j + 1];
    }
  }

  /** Appending a new element keeps a sequence free of repetitions. */
  lemma DistinctAppend<T>(s: seq<T>, x: T)
    requires Distinct(s) && x !in s
    ensures Distinct(s + [x])
    ensures forall y :: y in s + [x] <==> y in s || y == x
  {
  }

  /** A suffix of a concatenation that starts inside the first part. */
  lemma SliceConcat<T>(a: seq<T>, b: seq<T>, k: nat)
    requires k <= |a|
    ensures (a + b)[k..] == a[k..] + b
  {
  }

  /** A suffix is the suffix of the sequence without its last element, then that element. */
  lemma SliceDropLast<T>(s: seq<T>, k: nat)
    requires k < |s|
    ensures s[k..] == s[..|s| - 1][k..] + [s[|s| - 1]]
  {
  }

  /** A sequence without repetitions has as many elements as its set. */
  lemma {:induction false} DistinctCard<T>(s: seq<T>)
    requires Distinct(s)
    ensures |Elems(s)| == |s|
  {
    if s != [] {
      DistinctTail(s);
      DistinctCard(s[1..]);
      assert Elems(s) == {s[0]} + Elems(s[1..]);
      assert s[0] !in Elems(s[1..]);
    }
  }
}

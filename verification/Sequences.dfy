/** Sequences read as ordered sets: removal, first occurrences, distinctness. */
module Sequences {

  predicate Distinct<T(==)>(s: seq<T>) {
    forall i, j :: 0 <= i < j < |s| ==> s[i] != s[j]
  }

  ghost function Elements<T>(s: seq<T>): set<T> {
    set x | x in s
  }

  /** `s` without the elements of `gone`, order kept. */
  function Minus<T(==)>(s: seq<T>, gone: set<T>): seq<T> {
    if s == [] then []
    else
      var front, last := s[..|s| - 1], s[|s| - 1];
      if last in gone then Minus(front, gone) else Minus(front, gone) + [last]
  }

  /** The first occurrence of every element of `s`, in order. */
  function FirstSeen<T(==)>(s: seq<T>): seq<T> {
    if s == [] then []
    else
      var front, last := s[..|s| - 1], s[|s| - 1];
      if last in front then FirstSeen(front) else FirstSeen(front) + [last]
  }

  function Last<T>(s: seq<T>): T
    requires s != []
  {
    s[|s| - 1]
  }

  /** The last `n` elements of `s`, or all of them when there are fewer. */
  function LastN<T>(s: seq<T>, n: nat): seq<T> {
    if |s| > n then s[|s| - n..] else s
  }

  lemma {:induction false} MinusMember<T>(s: seq<T>, gone: set<T>)
    ensures forall x :: x in Minus(s, gone) <==> x in s && x !in gone
  {
    if s != [] {
      MinusMember(s[..|s| - 1], gone);
      assert s == s[..|s| - 1] + [s[|s| - 1]];
    }
  }

  lemma {:induction false} MinusDistinct<T>(s: seq<T>, gone: set<T>)
    requires Distinct(s)
    ensures Distinct(Minus(s, gone))
  {
    if s != [] {
      var front := s[..|s| - 1];
      MinusDistinct(front, gone);
      MinusMember(front, gone);
    }
  }

  lemma {:induction false} MinusMinus<T>(s: seq<T>, a: set<T>, b: set<T>)
    ensures Minus(Minus(s, a), b) == Minus(s, a + b)
  {
    if s != [] {
      var front, last := s[..|s| - 1], s[|s| - 1];
      MinusMinus(front, a, b);
      if last !in a {
        var kept := Minus(front, a);
        assert (kept + [last])[..|kept|] == kept;
      }
    }
  }

  lemma {:induction false} MinusNothing<T>(s: seq<T>, gone: set<T>)
    requires forall x :: x in s ==> x !in gone
    ensures Minus(s, gone) == s
  {
    if s != [] {
      MinusNothing(s[..|s| - 1], gone);
      assert s == s[..|s| - 1] + [s[|s| - 1]];
    }
  }

  lemma {:induction false} MinusConcat<T>(a: seq<T>, b: seq<T>, gone: set<T>)
    ensures Minus(a + b, gone) == Minus(a, gone) + Minus(b, gone)
  {
    if b == [] {
      assert a + b == a;
    } else {
      var front := b[..|b| - 1];
      MinusConcat(a, front, gone);
      assert (a + b)[..|a + b| - 1] == a + front;
    }
  }

  /** Dropping one element of a distinct sequence by value drops exactly its position. */
  lemma MinusOne<T>(a: seq<T>, x: T, b: seq<T>)
    requires Distinct(a + [x] + b)
    ensures Minus(a + [x] + b, {x}) == a + b
  {
    var s := a + [x] + b;
    forall y | y in a ensures y != x {
      var i :| 0 <= i < |a| && a[i] == y;
      assert s[i] == y && s[|a|] == x;
    }
    forall y | y in b ensures y != x {
      var i :| 0 <= i < |b| && b[i] == y;
      assert s[|a| + 1 + i] == y && s[|a|] == x;
    }
    MinusConcat(a + [x], b, {x});
    MinusConcat(a, [x], {x});
    MinusNothing(a, {x});
    MinusNothing(b, {x});
    assert Minus([x], {x}) == [];
  }

  lemma {:induction false} DistinctCardinality<T>(s: seq<T>)
    requires Distinct(s)
    ensures |Elements(s)| == |s|
  {
    if s == [] {
      assert Elements(s) == {};
    } else {
      var front, last := s[..|s| - 1], s[|s| - 1];
      DistinctCardinality(front);
      assert Elements(s) == Elements(front) + {last};
    }
  }

  lemma {:induction false} FirstSeenMember<T>(s: seq<T>)
    ensures forall x :: x in FirstSeen(s) <==> x in s
    ensures Distinct(FirstSeen(s))
  {
    if s != [] {
      FirstSeenMember(s[..|s| - 1]);
      assert s == s[..|s| - 1] + [s[|s| - 1]];
    }
  }

  lemma {:induction false} FirstSeenDistinct<T>(s: seq<T>)
    requires Distinct(s)
    ensures FirstSeen(s) == s
  {
    if s != [] {
      FirstSeenDistinct(s[..|s| - 1]);
      assert s == s[..|s| - 1] + [s[|s| - 1]];
    }
  }

  /** Removing repeats early on the left changes nothing. */
  lemma {:induction false} FirstSeenLeft<T>(a: seq<T>, b: seq<T>)
    ensures FirstSeen(FirstSeen(a) + b) == FirstSeen(a + b)
  {
    FirstSeenMember(a);
    if b == [] {
      assert a + b == a && FirstSeen(a) + b == FirstSeen(a);
      FirstSeenDistinct(FirstSeen(a));
    } else {
      var front := b[..|b| - 1];
      FirstSeenLeft(a, front);
      assert (a + b)[..|a + b| - 1] == a + front;
      assert (FirstSeen(a) + b)[..|FirstSeen(a) + b| - 1] == FirstSeen(a) + front;
    }
  }

  lemma FirstSeenNext<T>(s: seq<T>, x: T)
    ensures FirstSeen(s + [x]) == if x in s then FirstSeen(s) else FirstSeen(s) + [x]
  {
    assert (s + [x])[..|s|] == s;
  }

  /** Removing repeats early on the right changes nothing. */
  lemma {:induction false} FirstSeenRight<T>(a: seq<T>, b: seq<T>)
    ensures FirstSeen(a + FirstSeen(b)) == FirstSeen(a + b)
  {
    if b == [] {
      assert a + FirstSeen(b) == a + b;
    } else {
      var front, last := b[..|b| - 1], b[|b| - 1];
      FirstSeenRight(a, front);
      FirstSeenRightNext(a, front, last);
      assert b == front + [last];
    }
  }

  lemma FirstSeenRightNext<T>(a: seq<T>, b: seq<T>, x: T)
    requires FirstSeen(a + FirstSeen(b)) == FirstSeen(a + b)
    ensures FirstSeen(a + FirstSeen(b + [x])) == FirstSeen(a + (b + [x]))
  {
    assert a + (b + [x]) == (a + b) + [x];
    FirstSeenNext(b, x);
    if x in b {
      FirstSeenNext(a + b, x);
    } else {
      FirstSeenRightNew(a, b, FirstSeen(b), x);
    }
  }

  lemma FirstSeenRightNew<T>(a: seq<T>, b: seq<T>, kept: seq<T>, x: T)
    requires kept == FirstSeen(b) && x !in b && FirstSeen(a + kept) == FirstSeen(a + b)
    ensures FirstSeen(a + (kept + [x])) == FirstSeen((a + b) + [x])
  {
    FirstSeenMember(b);
    assert a + (kept + [x]) == (a + kept) + [x];
    FirstSeenNext(a + kept, x);
    FirstSeenNext(a + b, x);
  }
}

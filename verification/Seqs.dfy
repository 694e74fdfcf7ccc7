/** Sequences of any kind. */
module Seqs {

  predicate Distinct<T(==)>(s: seq<T>) {
    forall i, j :: 0 <= i < j < |s| ==> s[i] != s[j]
  }

  /** Moving the first element of `t` over to `s`. */
  lemma Shift<T>(s: seq<T>, t: seq<T>)
    requires t != []
    ensures s + [t[0]] + t[1..] == s + t
  {
  }

  lemma Joined<T>(a: seq<T>, b: seq<T>, c: seq<T>)
    ensures a + (b + c) == a + b + c
  {
  }

  lemma DropAhead<T>(s: seq<T>, n: nat, k: nat)
    requires n <= k <= |s|
    ensures s[..k][n..] == s[n..][..k - n]
    ensures s[n..][k - n..] == s[k..]
  {
  }

  lemma InOneMore<T>(x: T, xs: seq<T>, y: T)
    ensures x in xs + [y] <==> x in xs || x == y
  {
  }

  lemma OneAmong<T>(x: seq<T>, e: T, y: seq<T>)
    ensures multiset(x + [e] + y) == multiset(x + y) + multiset{e}
  {
  }

  lemma LeavingOneOut<T>(a: multiset<T>, b: multiset<T>, e: T)
    requires a + multiset{e} == b + multiset{e}
    ensures a == b
  {
    assert a == (a + multiset{e}) - multiset{e} == (b + multiset{e}) - multiset{e} == b;
  }

  /** Where the last element of one order of some elements stands in another. */
  lemma TakeLastOut<T>(a: seq<T>, b: seq<T>) returns (x: seq<T>, y: seq<T>)
    requires multiset(a) == multiset(b) && a != []
    ensures a == a[..|a| - 1] + [a[|a| - 1]] && b == x + [a[|a| - 1]] + y
    ensures multiset(a[..|a| - 1]) == multiset(x + y)
  {
    var last, front := a[|a| - 1], a[..|a| - 1];
    assert last in multiset(a);
    var i :| 0 <= i < |b| && b[i] == last;
    x, y := b[..i], b[i + 1..];
    assert a == front + [last] + [] && front + [] == front;
    assert b == x + [last] + y;
    OneAmong(front, last, []);
    OneAmong(x, last, y);
    LeavingOneOut(multiset(front), multiset(x + y), last);
  }

  lemma {:induction false} DistinctOnce<T>(s: seq<T>, x: T)
    requires Distinct(s)
    ensures multiset(s)[x] == if x in s then 1 else 0
  {
    if s == [] {
    } else {
      var n := |s| - 1;
      assert s == s[..n] + [s[n]];
      DistinctOnce(s[..n], x);
    }
  }

  /** The same elements, each once, in another order. */
  lemma SameElements<T>(a: seq<T>, b: seq<T>)
    requires Distinct(a) && Distinct(b) && forall x :: x in a <==> x in b
    ensures multiset(a) == multiset(b)
  {
    forall x ensures multiset(a)[x] == multiset(b)[x] {
      DistinctOnce(a, x);
      DistinctOnce(b, x);
    }
  }

  lemma {:induction false} Cardinality<T>(a: set<T>, b: set<T>)
    requires a <= b
    ensures |a| <= |b|
  {
    if a == {} {
    } else {
      var x :| x in a;
      Cardinality(a - {x}, b - {x});
    }
  }

  function Elements<T(==)>(s: seq<T>): set<T> {
    set x | x in s
  }

  lemma {:induction false} DistinctSize<T>(s: seq<T>)
    requires Distinct(s)
    ensures |Elements(s)| == |s|
  {
    if s == [] {
    } else {
      var n := |s| - 1;
      DistinctSize(s[..n]);
      assert s == s[..n] + [s[n]] && s[n] !in s[..n];
      assert Elements(s) == Elements(s[..n]) + {s[n]};
    }
  }

  /** Elements of `b`, each once, are fewer than `b` has, if one is missing. */
  lemma FewerElements<T>(a: seq<T>, b: seq<T>, missing: T)
    requires Distinct(a) && Distinct(b) && forall x :: x in a ==> x in b
    requires missing in b && missing !in a
    ensures |a| < |b|
  {
    DistinctSize(a);
    DistinctSize(b);
    Cardinality(Elements(a) + {missing}, Elements(b));
  }
}

/**
 Strict total orders, and the one increasing enumeration of a finite set under such an order.
 `ORDER BY` queries, `BTreeMap` keys and the sorted violation list are all instances of it.
 */
module Ordering {

  ghost predicate StrictTotal<T(!new)>(less: (T, T) -> bool) {
    && (forall x :: !less(x, x))
    && (forall x, y, z :: less(x, y) && less(y, z) ==> less(x, z))
    && (forall x, y :: x != y ==> less(x, y) || less(y, x))
  }

  ghost predicate Increasing<T>(less: (T, T) -> bool, s: seq<T>) {
    forall i, j :: 0 <= i < j < |s| ==> less(s[i], s[j])
  }

  ghost predicate IsGreatest<T>(less: (T, T) -> bool, s: set<T>, m: T) {
    m in s && forall x :: x in s && x != m ==> less(x, m)
  }

  lemma {:induction false} Greatest<T(!new)>(less: (T, T) -> bool, s: set<T>) returns (m: T)
    requires StrictTotal(less) && s != {}
    ensures IsGreatest(less, s, m)
    decreases |s|
  {
    m :| m in s;
    var rest := s - {m};
    if rest != {} {
      var top := Greatest(less, rest);
      var below := m;
      m := if less(top, below) then below else top;
      forall x | x in s && x != m ensures less(x, m) {
        assert x == top || x == below || less(x, top);
      }
    }
  }

  /** Every nonempty finite set has a greatest element. */
  lemma GreatestExists<T(!new)>(less: (T, T) -> bool, s: set<T>)
    requires StrictTotal(less) && s != {}
    ensures exists m :: m in s && forall x :: x in s && x != m ==> less(x, m)
  {
    var m := Greatest(less, s);
    assert IsGreatest(less, s, m);
  }

  /** The elements of `s` in increasing order. */
  function Ascending<T(!new,==)>(less: (T, T) -> bool, s: set<T>): (r: seq<T>)
    requires StrictTotal(less)
    ensures Increasing(less, r)
    ensures forall x :: x in r <==> x in s
    ensures |r| == |s|
    decreases |s|
  {
    if s == {} then []
    else
      GreatestExists(less, s);
      var m :| m in s && forall x :: x in s && x != m ==> less(x, m);
      assert |s - {m}| == |s| - 1;
      var r := Ascending(less, s - {m});
      assert forall i :: 0 <= i < |r| ==> r[i] in r;
      r + [m]
  }

  lemma HasMember<T>(s: seq<T>)
    ensures s != [] ==> exists x :: x in s
  {
    if s != [] {
      assert s[0] in s;
    }
  }

  /** The head of an increasing sequence is its least element. */
  lemma HeadIsLeast<T(!new)>(less: (T, T) -> bool, s: seq<T>, x: T)
    requires Increasing(less, s) && x in s
    ensures s != [] && s[0] in s && (x == s[0] || less(s[0], x))
  {
    var i :| 0 <= i < |s| && s[i] == x;
    assert i == 0 || less(s[0], s[i]);
  }

  /** Two increasing sequences with the same elements are the same sequence. */
  lemma {:induction false} IncreasingIsUnique<T(!new)>(less: (T, T) -> bool, a: seq<T>, b: seq<T>)
    requires StrictTotal(less) && Increasing(less, a) && Increasing(less, b)
    requires forall x :: x in a <==> x in b
    ensures a == b
    decreases |a|
  {
    if a != [] {
      HeadIsLeast(less, b, a[0]);
      HeadIsLeast(less, a, b[0]);
      var ta, tb := a[1..], b[1..];
      forall x ensures x in ta <==> x in tb {
        TailMembers(less, a, x);
        TailMembers(less, b, x);
      }
      IncreasingIsUnique(less, ta, tb);
      assert a == [a[0]] + ta && b == [b[0]] + tb;
    } else {
      HasMember(b);
    }
  }

  lemma TailMembers<T(!new)>(less: (T, T) -> bool, s: seq<T>, x: T)
    requires StrictTotal(less) && Increasing(less, s) && s != []
    ensures x in s[1..] <==> x in s && x != s[0]
  {
    if x in s[1..] {
      var k :| 0 <= k < |s[1..]| && s[1..][k] == x;
      assert s[k + 1] == x && less(s[0], s[k + 1]);
    }
  }

  /** Integers by value: row ids in the order of their text, attempt numbers. */
  predicate Below(a: int, b: int) {
    a < b
  }

  lemma BelowIsTotal()
    ensures StrictTotal(Below)
  {
  }

  /** Strings by code point, which is how UTF-8 text compares bytewise. */
  predicate LexBelow(a: string, b: string) {
    if b == "" then false
    else if a == "" then true
    else a[0] < b[0] || (a[0] == b[0] && LexBelow(a[1..], b[1..]))
  }

  lemma {:induction false} LexTrichotomy(a: string, b: string)
    ensures !LexBelow(a, a)
    ensures a != b ==> LexBelow(a, b) || LexBelow(b, a)
  {
    if a != "" {
      LexTrichotomy(a[1..], if b == "" then "" else b[1..]);
      if b != "" && a[0] == b[0] && a != b {
        assert a == [a[0]] + a[1..] && b == [b[0]] + b[1..];
      }
    }
  }

  lemma {:induction false} LexTransitive(a: string, b: string, c: string)
    requires LexBelow(a, b) && LexBelow(b, c)
    ensures LexBelow(a, c)
  {
    if a != "" && a[0] == b[0] && b[0] == c[0] {
      LexTransitive(a[1..], b[1..], c[1..]);
    }
  }

  lemma LexIsTotal()
    ensures StrictTotal(LexBelow)
  {
    forall x, y ensures !LexBelow(x, x) && (x != y ==> LexBelow(x, y) || LexBelow(y, x)) {
      LexTrichotomy(x, y);
    }
    forall x, y, z | LexBelow(x, y) && LexBelow(y, z) ensures LexBelow(x, z) {
      LexTransitive(x, y, z);
    }
  }

  /** The text order, said by position: at the first difference the smaller character is first, and a proper prefix comes before. */
  ghost predicate FirstDifference(a: string, b: string, n: nat) {
    && n <= |a| && n < |b| && a[..n] == b[..n]
    && (n == |a| || a[n] < b[n])
  }

  lemma {:induction false} DifferenceIsBelow(a: string, b: string, n: nat)
    requires FirstDifference(a, b, n)
    ensures LexBelow(a, b)
  {
    if n > 0 {
      assert a[0] == a[..n][0] == b[..n][0] == b[0];
      assert a[1..][..n - 1] == a[..n][1..] && b[1..][..n - 1] == b[..n][1..];
      DifferenceIsBelow(a[1..], b[1..], n - 1);
    }
  }

  lemma {:induction false} BelowHasDifference(a: string, b: string) returns (n: nat)
    requires LexBelow(a, b)
    ensures FirstDifference(a, b, n)
  {
    if a == "" || a[0] != b[0] {
      n := 0;
    } else {
      var m := BelowHasDifference(a[1..], b[1..]);
      n := m + 1;
      assert a[..n] == [a[0]] + a[1..][..m] && b[..n] == [b[0]] + b[1..][..m];
    }
  }

  lemma LexBelowMeans(a: string, b: string)
    ensures LexBelow(a, b) <==> exists n: nat :: FirstDifference(a, b, n)
  {
    if LexBelow(a, b) {
      var n := BelowHasDifference(a, b);
    }
    if n: nat :| FirstDifference(a, b, n) {
      DifferenceIsBelow(a, b, n);
    }
  }
}

/**
 * Sorting, as Rust's `sort`/`sort_by` use it: the result is ordered and is a
 * permutation of the input. Also the code-point lexicographic order on
 * strings, which is the order of Rust's `String` (UTF-8 byte order and
 * code-point order agree), and the turning of a set into a duplicate-free
 * sequence (the iteration of a `HashSet`, in an order the model leaves open).
 */
module Sorting {
  ghost predicate TotalOrder<T(!new)>(le: (T, T) -> bool) {
    && (forall a, b :: le(a, b) || le(b, a))
    && (forall a, b, c :: le(a, b) && le(b, c) ==> le(a, c))
  }

  ghost predicate SortedBy<T>(s: seq<T>, le: (T, T) -> bool) {
    forall i, j :: 0 <= i < j < |s| ==> le(s[i], s[j])
  }

  function Insert<T(!new)>(x: T, s: seq<T>, le: (T, T) -> bool): (r: seq<T>)
    requires TotalOrder(le) && SortedBy(s, le)
    ensures multiset(r) == multiset(s) + multiset{x}
    ensures SortedBy(r, le)
    ensures x !in s && Distinct(s) ==> Distinct(r)
  {
    if s == [] then [x]
    else if le(x, s[0]) then
      PrependBelow(x, s, le);
      [x] + s
    else
      var rest := Insert(x, s[1..], le);
      assert s == [s[0]] + s[1..];
      InsertedTailAbove(x, s, rest, le);
      PrependBelow(s[0], rest, le);
      [s[0]] + rest
  }

  /** Putting an element at or below the head of a sorted sequence in front keeps it sorted. */
  lemma PrependBelow<T(!new)>(h: T, s: seq<T>, le: (T, T) -> bool)
    requires TotalOrder(le) && SortedBy(s, le)
    requires s != [] ==> le(h, s[0])
    ensures SortedBy([h] + s, le)
    ensures h !in s && Distinct(s) ==> Distinct([h] + s)
  {
    var r := [h] + s;
    forall i, j | 0 <= i < j < |r| ensures le(r[i], r[j]) {
      if i == 0 && j > 1 {
        assert le(s[0], s[j - 1]);
      }
    }
  }

  /** What `Insert` needs of the recursive result when `x` goes after the head of `s`. */
  lemma InsertedTailAbove<T(!new)>(x: T, s: seq<T>, rest: seq<T>, le: (T, T) -> bool)
    requires TotalOrder(le) && SortedBy(s, le) && s != [] && !le(x, s[0])
    requires multiset(rest) == multiset(s[1..]) + multiset{x}
    ensures rest != [] ==> le(s[0], rest[0])
    ensures forall j :: 0 <= j < |rest| ==> le(s[0], rest[j])
    ensures x !in s && Distinct(s) ==> s[0] !in rest
  {
    forall j | 0 <= j < |rest| ensures le(s[0], rest[j]) {
      var y := rest[j];
      assert y in multiset(rest);
      if y != x {
        assert y in multiset(s[1..]);
        var i :| 0 <= i < |s[1..]| && s[1..][i] == y;
        assert s[1 + i] == y;
      }
    }
    if x !in s && Distinct(s) {
      HeadNotInTail(s);
      assert s[0] !in multiset(rest);
    }
  }

  lemma HeadNotInTail<T>(s: seq<T>)
    requires Distinct(s) && s != []
    ensures s[0] !in s[1..] && Distinct(s[1..])
  {
    forall j | 0 <= j < |s[1..]| ensures s[1..][j] != s[0] {
      assert s[1..][j] == s[1 + j];
    }
  }

  /** Insertion sort: ordered by `le` and a permutation of `s`. */
  function Sort<T(!new)>(s: seq<T>, le: (T, T) -> bool): (r: seq<T>)
    requires TotalOrder(le)
    ensures multiset(r) == multiset(s)
    ensures |r| == |s|
    ensures SortedBy(r, le)
    ensures Distinct(s) ==> Distinct(r)
  {
    if s == [] then []
    else
      assert s == [s[0]] + s[1..];
      var rest := Sort(s[1..], le);
      assert Distinct(s) ==> s[0] !in rest by {
        if Distinct(s) {
          HeadNotInTail(s);
          assert s[0] !in multiset(rest);
        }
      }
      Insert(s[0], rest, le)
  }

  /** `a <= b` in code-point lexicographic order. */
  predicate LexLe(a: string, b: string) {
    |a| == 0 || (|b| > 0 && (a[0] < b[0] || (a[0] == b[0] && LexLe(a[1..], b[1..]))))
  }

  lemma {:induction false} LexLeTotal(a: string, b: string)
    ensures LexLe(a, b) || LexLe(b, a)
  {
    if |a| > 0 && |b| > 0 && a[0] == b[0] {
      LexLeTotal(a[1..], b[1..]);
    }
  }

  lemma {:induction false} LexLeTransitive(a: string, b: string, c: string)
    requires LexLe(a, b) && LexLe(b, c)
    ensures LexLe(a, c)
  {
    if |a| > 0 && a[0] == b[0] && b[0] == c[0] {
      LexLeTransitive(a[1..], b[1..], c[1..]);
    }
  }

  lemma {:induction false} LexLeAntisymmetric(a: string, b: string)
    requires LexLe(a, b) && LexLe(b, a)
    ensures a == b
  {
    if |a| > 0 {
      LexLeAntisymmetric(a[1..], b[1..]);
      assert a == [a[0]] + a[1..] && b == [b[0]] + b[1..];
    }
  }

  /** The order of Rust's `String`: a total order. */
  lemma StringOrderIsTotal()
    ensures TotalOrder(LexLe)
  {
    forall a, b ensures LexLe(a, b) || LexLe(b, a) {
      LexLeTotal(a, b);
    }
    forall a, b, c | LexLe(a, b) && LexLe(b, c) ensures LexLe(a, c) {
      LexLeTransitive(a, b, c);
    }
  }

  /** Sorting strings as Rust's `Vec<String>::sort` does. */
  function SortStrings(s: seq<string>): (r: seq<string>)
    ensures multiset(r) == multiset(s) && |r| == |s|
    ensures SortedBy(r, LexLe)
  {
    StringOrderIsTotal();
    Sort(s, LexLe)
  }

  ghost predicate Distinct<T>(s: seq<T>) {
    forall i, j :: 0 <= i < j < |s| ==> s[i] != s[j]
  }

  /** The elements of a set, one by one, in an order the caller cannot rely on. */
  method SetToSeq<T>(s: set<T>) returns (r: seq<T>)
    ensures |r| == |s|
    ensures forall x :: x in s <==> x in r
    ensures Distinct(r)
  {
    r := [];
    var rest := s;
    while rest != {}
      invariant rest <= s
      invariant forall x :: x in s <==> x in r || x in rest
      invariant forall x :: x in r ==> x !in rest
      invariant Distinct(r)
      invariant |r| + |rest| == |s|
      decreases |rest|
    {
      var x :| x in rest;
      r := r + [x];
      rest := rest - {x};
    }
  }

  ghost predicate Antisymmetric<T(!new)>(le: (T, T) -> bool) {
    forall a, b :: le(a, b) && le(b, a) ==> a == b
  }

  lemma StringOrderIsAntisymmetric()
    ensures Antisymmetric(LexLe)
  {
    forall a, b | LexLe(a, b) && LexLe(b, a) ensures a == b {
      LexLeAntisymmetric(a, b);
    }
  }

  lemma MultisetCancel<T>(x: T, m: multiset<T>, n: multiset<T>)
    requires multiset{x} + m == multiset{x} + n
    ensures m == n
  {
    forall y ensures m[y] == n[y] {
      assert (multiset{x} + m)[y] == (multiset{x} + n)[y];
    }
  }

  /** Under an antisymmetric total order a multiset has exactly one sorted arrangement. */
  lemma {:induction false} SortedPermutationUnique<T(!new)>(a: seq<T>, b: seq<T>, le: (T, T) -> bool)
    requires TotalOrder(le) && Antisymmetric(le)
    requires SortedBy(a, le) && SortedBy(b, le) && multiset(a) == multiset(b)
    ensures a == b
    decreases |a|
  {
    assert |a| == |multiset(a)| == |multiset(b)| == |b|;
    if a != [] {
      assert le(b[0], a[0]) by {
        assert a[0] in multiset(b);
        var j :| 0 <= j < |b| && b[j] == a[0];
        if j > 0 { assert le(b[0], b[j]); }
      }
      assert le(a[0], b[0]) by {
        assert b[0] in multiset(a);
        var j :| 0 <= j < |a| && a[j] == b[0];
        if j > 0 { assert le(a[0], a[j]); }
      }
      var x := a[0];
      assert x == b[0];
      assert multiset(a) == multiset{x} + multiset(a[1..]) by { assert a == [x] + a[1..]; }
      assert multiset(b) == multiset{x} + multiset(b[1..]) by { assert b == [x] + b[1..]; }
      MultisetCancel(x, multiset(a[1..]), multiset(b[1..]));
      SortedPermutationUnique(a[1..], b[1..], le);
    }
  }

  /** The numeric order on naturals. */
  predicate NatLe(a: nat, b: nat) { a <= b }

  lemma NatOrder()
    ensures TotalOrder(NatLe) && Antisymmetric(NatLe)
  {
  }

  lemma {:induction false} MinExists<T(!new)>(s: set<T>, le: (T, T) -> bool) returns (m: T)
    requires TotalOrder(le) && s != {}
    ensures m in s && forall x :: x in s ==> le(m, x)
    decreases |s|
  {
    var y :| y in s;
    assert le(y, y);
    if s == {y} {
      m := y;
    } else {
      var m' := MinExists(s - {y}, le);
      if le(y, m') {
        m := y;
        forall x | x in s ensures le(m, x) {
          if x != y {
            assert le(m', x);
          }
        }
      } else {
        assert le(m', y);
        m := m';
      }
    }
  }

  lemma HasMinimum<T(!new)>(s: set<T>, le: (T, T) -> bool)
    requires TotalOrder(le) && s != {}
    ensures exists m :: m in s && forall x :: x in s ==> le(m, x)
  {
    var m := MinExists(s, le);
  }

  /** The elements of a finite set in ascending order, smallest first. */
  ghost function Ascending<T(!new)>(s: set<T>, le: (T, T) -> bool): seq<T>
    requires TotalOrder(le)
    decreases |s|
  {
    if s == {} then []
    else
      HasMinimum(s, le);
      var m :| m in s && forall x :: x in s ==> le(m, x);
      [m] + Ascending(s - {m}, le)
  }

  /** `Ascending` lists every element of the set exactly once, in order. */
  lemma {:induction false} AscendingIsSortedListing<T(!new)>(s: set<T>, le: (T, T) -> bool)
    requires TotalOrder(le)
    ensures SortedBy(Ascending(s, le), le) && Distinct(Ascending(s, le))
    ensures |Ascending(s, le)| == |s|
    ensures forall x :: x in Ascending(s, le) <==> x in s
    decreases |s|
  {
    if s != {} {
      var r := Ascending(s, le);
      var m := r[0];
      assert m in s && (forall x :: x in s ==> le(m, x)) && r[1..] == Ascending(s - {m}, le);
      AscendingIsSortedListing(s - {m}, le);
    }
  }

  /** Two sorted, duplicate-free listings of the same elements are equal. */
  lemma {:induction false} SortedListingUnique<T(!new)>(a: seq<T>, b: seq<T>, le: (T, T) -> bool)
    requires TotalOrder(le) && Antisymmetric(le)
    requires SortedBy(a, le) && Distinct(a) && SortedBy(b, le) && Distinct(b)
    requires forall x :: x in a <==> x in b
    ensures a == b
    decreases |a|
  {
    assert |a| == 0 <==> |b| == 0 by {
      if |b| > 0 { assert b[0] in a; }
      if |a| > 0 { assert a[0] in b; }
    }
    if a != [] {
      assert le(a[0], b[0]) by {
        assert b[0] in a;
        var j :| 0 <= j < |a| && a[j] == b[0];
        if j > 0 { assert le(a[0], a[j]); }
      }
      assert a[0] == b[0] by {
        assert a[0] in b;
      }
      forall x ensures x in a[1..] <==> x in b[1..] {
        if x in a[1..] {
          assert x != a[0];
          assert x in b;
        }
        if x in b[1..] {
          assert x != b[0];
          assert x in a;
        }
      }
      SortedListingUnique(a[1..], b[1..], le);
      assert a == [a[0]] + a[1..] && b == [b[0]] + b[1..];
    }
  }

  /** A set's elements collected into a sequence and then sorted, as `collect` followed by `sort` does. */
  method SortedElements<T(!new)>(s: set<T>, le: (T, T) -> bool) returns (r: seq<T>)
    requires TotalOrder(le) && Antisymmetric(le)
    ensures r == Ascending(s, le)
  {
    var listed := SetToSeq(s);
    r := Sort(listed, le);
    AscendingIsSortedListing(s, le);
    forall x ensures x in r <==> x in Ascending(s, le) {
      assert x in r <==> x in multiset(listed);
    }
    SortedListingUnique(r, Ascending(s, le), le);
  }
}

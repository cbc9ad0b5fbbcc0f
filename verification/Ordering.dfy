/** Byte order of identifiers and keys, and choice by that order from finite sets. */
module Ordering {

  /** Strict lexicographic order on strings. */
  predicate Before(a: string, b: string)
  {
    b != [] && (a == [] || a[0] < b[0] || (a[0] == b[0] && Before(a[1..], b[1..])))
  }

  lemma {:induction false} BeforeTotal(a: string, b: string)
    ensures Before(a, b) || a == b || Before(b, a)
  {
    if a != [] && b != [] && a[0] == b[0] {
      BeforeTotal(a[1..], b[1..]);
      assert a[1..] == b[1..] ==> a == [a[0]] + a[1..] == [b[0]] + b[1..] == b;
    }
  }

  lemma {:induction false} BeforeTransitive(a: string, b: string, c: string)
    requires Before(a, b) && Before(b, c)
    ensures Before(a, c)
  {
    if a != [] && a[0] == b[0] && b[0] == c[0] {
      BeforeTransitive(a[1..], b[1..], c[1..]);
    }
  }

  lemma {:induction false} BeforeIrreflexive(a: string)
    ensures !Before(a, a)
  {
    if a != [] { BeforeIrreflexive(a[1..]); }
  }

  /** The strings agree up to the n-th place, where `a` ends or has the smaller character. */
  ghost predicate SmallerAt(a: string, b: string, n: nat) {
    n <= |a| && n < |b| && a[..n] == b[..n] && (n == |a| || a[n] < b[n])
  }

  lemma {:induction false} SmallerLater(a: string, b: string, n: nat)
    requires a != [] && b != [] && a[0] == b[0]
    ensures SmallerAt(a, b, n + 1) <==> SmallerAt(a[1..], b[1..], n)
  {
    if n < |a| && n + 1 < |b| {
      assert a[..n + 1] == [a[0]] + a[1..][..n] && b[..n + 1] == [b[0]] + b[1..][..n];
      assert a[1..][..n] == a[..n + 1][1..] && b[1..][..n] == b[..n + 1][1..];
    }
  }

  /** The order goes by the first place where the strings differ; a proper prefix comes first. */
  lemma {:induction false} BeforeExactly(a: string, b: string)
    ensures Before(a, b) <==> exists n: nat :: SmallerAt(a, b, n)
  {
    if a == [] || b == [] || a[0] != b[0] {
      forall n: nat | 0 < n <= |a| && n < |b| ensures a[..n] != b[..n] { assert a[..n][0] != b[..n][0]; }
      assert b != [] ==> a[..0] == b[..0];
      assert Before(a, b) <==> SmallerAt(a, b, 0);
    } else {
      BeforeExactly(a[1..], b[1..]);
      if Before(a, b) {
        var n: nat :| SmallerAt(a[1..], b[1..], n);
        SmallerLater(a, b, n);
      }
      if n: nat :| SmallerAt(a, b, n) {
        assert n > 0;
        SmallerLater(a, b, n - 1);
      }
    }
  }

  /** `m` is the last element of `s`. */
  ghost predicate IsLargest(m: string, s: set<string>) {
    m in s && forall x :: x in s && x != m ==> Before(x, m)
  }

  /** `m` is the first element of `s`. */
  ghost predicate IsSmallest(m: string, s: set<string>) {
    m in s && forall x :: x in s && x != m ==> Before(m, x)
  }

  lemma {:induction false} LargestExists(s: set<string>)
    requires s != {}
    ensures exists m :: IsLargest(m, s)
  {
    var x :| x in s;
    var rest := s - {x};
    if rest == {} {
      assert s == {x};
      assert IsLargest(x, s);
    } else {
      LargestExists(rest);
      var m :| IsLargest(m, rest);
      BeforeTotal(x, m);
      if Before(x, m) {
        assert IsLargest(m, s);
      } else {
        forall y | y in s && y != x ensures Before(y, x) {
          if y != m { BeforeTransitive(y, m, x); }
        }
        assert IsLargest(x, s);
      }
    }
  }

  lemma {:induction false} SmallestExists(s: set<string>)
    requires s != {}
    ensures exists m :: IsSmallest(m, s)
  {
    var x :| x in s;
    var rest := s - {x};
    if rest == {} {
      assert s == {x};
      assert IsSmallest(x, s);
    } else {
      SmallestExists(rest);
      var m :| IsSmallest(m, rest);
      BeforeTotal(x, m);
      if Before(m, x) {
        assert IsSmallest(m, s);
      } else {
        forall y | y in s && y != x ensures Before(x, y) {
          if y != m { BeforeTransitive(x, m, y); }
        }
        assert IsSmallest(x, s);
      }
    }
  }

  lemma {:induction false} LargestUnique(s: set<string>, m: string, n: string)
    requires IsLargest(m, s) && IsLargest(n, s)
    ensures m == n
  {
    if m != n {
      BeforeTransitive(m, n, m);
      BeforeIrreflexive(m);
    }
  }

  lemma {:induction false} SmallestUnique(s: set<string>, m: string, n: string)
    requires IsSmallest(m, s) && IsSmallest(n, s)
    ensures m == n
  {
    if m != n {
      BeforeTransitive(m, n, m);
      BeforeIrreflexive(m);
    }
  }

  ghost function Largest(s: set<string>): (m: string)
    requires s != {}
    ensures IsLargest(m, s)
  {
    LargestExists(s);
    var m :| IsLargest(m, s);
    m
  }

  ghost function Smallest(s: set<string>): (m: string)
    requires s != {}
    ensures IsSmallest(m, s)
  {
    SmallestExists(s);
    var m :| IsSmallest(m, s);
    m
  }

  function Min(a: int, b: int): int { if a <= b then a else b }

  function Max(a: int, b: int): int { if a >= b then a else b }

  /** Subtraction that stops at zero. */
  function Surplus(a: nat, b: nat): nat { if a <= b then 0 else a - b }

  /** What remains of `s` when its last element is popped until at most `k` are left. */
  ghost function KeepSmallest(s: set<string>, k: nat): (r: set<string>)
    ensures r <= s && |r| == Min(|s|, k)
    decreases |s|
  {
    if |s| <= k then s else KeepSmallest(s - {Largest(s)}, k)
  }

  lemma {:induction false} KeptAreFirst(s: set<string>, k: nat, x: string, y: string)
    requires x in KeepSmallest(s, k) && y in s - KeepSmallest(s, k)
    ensures Before(x, y)
    decreases |s|
  {
    if y != Largest(s) { KeptAreFirst(s - {Largest(s)}, k, x, y); }
  }

  function Elements(q: seq<string>): set<string> { set x | x in q }

  lemma {:induction false} ElementsConcat(p: seq<string>, q: seq<string>)
    ensures Elements(p + q) == Elements(p) + Elements(q)
  {
  }

  ghost predicate Sorted(q: seq<string>) {
    forall i, j :: 0 <= i < j < |q| ==> Before(q[i], q[j])
  }

  /** The elements of `s` in order, as iterating an ordered map or set yields them. */
  ghost function Ordered(s: set<string>): seq<string>
    decreases |s|
  {
    if s == {} then [] else var m := Smallest(s); [m] + Ordered(s - {m})
  }

  lemma {:induction false} OrderedContents(s: set<string>)
    ensures Elements(Ordered(s)) == s && |Ordered(s)| == |s|
    decreases |s|
  {
    if s != {} {
      var m := Smallest(s);
      OrderedContents(s - {m});
      ElementsConcat([m], Ordered(s - {m}));
    }
  }

  lemma {:induction false} OrderedIsSorted(s: set<string>)
    ensures Sorted(Ordered(s))
    decreases |s|
  {
    if s != {} {
      var m := Smallest(s);
      var rest := Ordered(s - {m});
      OrderedIsSorted(s - {m});
      OrderedContents(s - {m});
      forall j | 0 <= j < |rest| ensures Before(m, rest[j]) {
        assert rest[j] in Elements(rest);
      }
    }
  }

  method SortIds(s: set<string>) returns (q: seq<string>)
    ensures q == Ordered(s)
  {
    q := [];
    var rest := s;
    while rest != {}
      invariant rest <= s && q + Ordered(rest) == Ordered(s)
      decreases |rest|
    {
      var m := SmallestOf(rest);
      SmallestUnique(rest, m, Smallest(rest));
      assert q + Ordered(rest) == (q + [m]) + Ordered(rest - {m});
      q, rest := q + [m], rest - {m};
    }
  }

  lemma {:induction false} SortedSnoc(front: seq<string>, m: string)
    requires Sorted(front + [m])
    ensures Sorted(front) && m !in front && Elements(front + [m]) == Elements(front) + {m}
    ensures IsLargest(m, Elements(front + [m])) && Elements(front) == Elements(front + [m]) - {m}
  {
    var q := front + [m];
    forall i | 0 <= i < |front| ensures Before(front[i], m) && front[i] != m {
      assert Before(q[i], q[|front|]);
      BeforeIrreflexive(m);
    }
    assert forall i, j :: 0 <= i < j < |front| ==> q[i] == front[i] && q[j] == front[j];
  }

  lemma {:induction false} SortedSize(q: seq<string>)
    requires Sorted(q)
    ensures |Elements(q)| == |q|
    decreases |q|
  {
    if q != [] {
      var front, m := q[..|q| - 1], q[|q| - 1];
      assert q == front + [m];
      SortedSnoc(front, m);
      SortedSize(front);
    }
  }

  lemma {:induction false} KeepSnoc(front: seq<string>, m: string, k: nat)
    requires Sorted(front + [m]) && k <= |front|
    ensures KeepSmallest(Elements(front + [m]), k) == KeepSmallest(Elements(front), k)
  {
    SortedSnoc(front, m);
    SortedSize(front + [m]);
    LargestUnique(Elements(front + [m]), m, Largest(Elements(front + [m])));
  }

  lemma {:induction false} SortedPrefix(q: seq<string>, n: nat)
    requires Sorted(q) && n <= |q|
    ensures Sorted(q[..n])
  {
    forall i, j | 0 <= i < j < n ensures Before(q[..n][i], q[..n][j]) {
      assert Before(q[i], q[j]);
    }
  }

  /** Popping the end of a sorted sequence keeps the smallest elements. */
  lemma {:induction false} PrefixIsSmallest(q: seq<string>, n: nat, k: nat)
    requires Sorted(q) && n <= |q|
    ensures KeepSmallest(Elements(q[..n]), k) == Elements(q[..Min(n, k)])
    decreases n
  {
    if k < n {
      var m := n - 1;
      PopLast(q, m, k);
      PrefixIsSmallest(q, m, k);
    } else {
      SortedPrefix(q, n);
      SortedSize(q[..n]);
    }
  }

  lemma {:induction false} PopLast(q: seq<string>, m: nat, k: nat)
    requires Sorted(q) && k <= m < |q|
    ensures KeepSmallest(Elements(q[..m + 1]), k) == KeepSmallest(Elements(q[..m]), k)
  {
    SortedPrefix(q, m + 1);
    assert q[..m + 1] == q[..m] + [q[m]];
    KeepSnoc(q[..m], q[m], k);
  }

  method SmallestOf(s: set<string>) returns (m: string)
    requires s != {}
    ensures IsSmallest(m, s)
  {
    m :| m in s;
    var seen, rest := {m}, s - {m};
    while rest != {}
      invariant seen + rest == s && IsSmallest(m, seen)
      decreases |rest|
    {
      var x :| x in rest;
      BeforeTotal(x, m);
      if Before(x, m) {
        forall y | y in seen && y != x ensures Before(x, y) {
          if y != m { BeforeTransitive(x, m, y); }
        }
        m := x;
      }
      seen, rest := seen + {x}, rest - {x};
    }
  }
}

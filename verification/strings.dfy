/** Byte-wise string ordering, sorting and the small string helpers the
    capacity commands share.

    Go compares strings byte by byte; for well-formed UTF-8 that is the same
    order as comparing Unicode code points one character at a time, which is
    what `Below` does on Dafny strings. */
module Strings {

  /** `a` sorts at or before `b` (Go's `a <= b` on strings). */
  predicate Below(a: string, b: string)
    decreases |a|
  {
    |a| == 0 || (|b| > 0 && (a[0] < b[0] || (a[0] == b[0] && Below(a[1..], b[1..]))))
  }

  lemma {:induction false} BelowReflexive(a: string)
    ensures Below(a, a)
    decreases |a|
  {
    if |a| > 0 {
      BelowReflexive(a[1..]);
    }
  }

  lemma {:induction false} BelowAntisymmetric(a: string, b: string)
    requires Below(a, b) && Below(b, a)
    ensures a == b
    decreases |a|
  {
    if |a| > 0 {
      assert |b| > 0 && a[0] == b[0];
      BelowAntisymmetric(a[1..], b[1..]);
      assert a == [a[0]] + a[1..] && b == [b[0]] + b[1..];
    }
  }

  lemma {:induction false} BelowTransitive(a: string, b: string, c: string)
    requires Below(a, b) && Below(b, c)
    ensures Below(a, c)
    decreases |a|
  {
    if |a| > 0 && a[0] == b[0] && b[0] == c[0] {
      BelowTransitive(a[1..], b[1..], c[1..]);
    }
  }

  lemma {:induction false} BelowTotal(a: string, b: string)
    ensures Below(a, b) || Below(b, a)
    decreases |a|
  {
    if |a| > 0 && |b| > 0 && a[0] == b[0] {
      BelowTotal(a[1..], b[1..]);
    }
  }

  /** `Below` is a total order: the three facts every sorting proof needs,
      stated for all strings at once. */
  lemma BelowIsTotalOrder()
    ensures forall a, b :: Below(a, b) && Below(b, a) ==> a == b
    ensures forall a, b, c :: Below(a, b) && Below(b, c) ==> Below(a, c)
    ensures forall a, b :: Below(a, b) || Below(b, a)
  {
    forall a, b | Below(a, b) && Below(b, a) {
      BelowAntisymmetric(a, b);
    }
    forall a, b, c | Below(a, b) && Below(b, c) {
      BelowTransitive(a, b, c);
    }
    forall a, b {
      BelowTotal(a, b);
    }
  }

  predicate Sorted(xs: seq<string>) {
    forall i, j :: 0 <= i < j < |xs| ==> Below(xs[i], xs[j])
  }

  predicate Distinct<T(==)>(xs: seq<T>) {
    forall i, j :: 0 <= i < j < |xs| ==> xs[i] != xs[j]
  }

  /** Dropping the last element keeps a sequence duplicate-free, and that
      element does not occur before it. */
  lemma DistinctInit<T>(xs: seq<T>)
    requires |xs| > 0 && Distinct(xs)
    ensures Distinct(xs[..|xs| - 1])
    ensures xs[|xs| - 1] !in xs[..|xs| - 1]
  {
  }

  /** Inserts `x` into the sorted sequence `xs` in front of the first element
      it sorts at or before. */
  function Insert(x: string, xs: seq<string>): (r: seq<string>)
    requires Sorted(xs)
    ensures Sorted(r)
    ensures multiset(r) == multiset(xs) + multiset{x}
    ensures |r| == |xs| + 1
  {
    if |xs| == 0 then [x]
    else if Below(x, xs[0]) then
      PrependSorted(x, xs);
      [x] + xs
    else
      var rest := Insert(x, xs[1..]);
      BelowTotal(x, xs[0]);
      assert xs == [xs[0]] + xs[1..];
      HeadBelowInserted(xs, x, rest);
      PrependSorted(xs[0], rest);
      [xs[0]] + rest
  }

  /** A sorted sequence stays sorted when an element at or below its first
      one is put in front. */
  lemma PrependSorted(x: string, xs: seq<string>)
    requires Sorted(xs)
    requires |xs| > 0 ==> Below(x, xs[0])
    ensures Sorted([x] + xs)
  {
    forall k | 0 <= k < |xs|
      ensures Below(x, xs[k])
    {
      if k > 0 {
        BelowTransitive(x, xs[0], xs[k]);
      }
    }
  }

  /** The head of a sorted sequence sorts at or before every element of the
      rest with one more element at or above it inserted. */
  lemma HeadBelowInserted(xs: seq<string>, x: string, rest: seq<string>)
    requires Sorted(xs) && |xs| > 0 && Below(xs[0], x)
    requires multiset(rest) == multiset(xs[1..]) + multiset{x}
    ensures |rest| > 0 ==> Below(xs[0], rest[0])
  {
    if |rest| > 0 {
      assert rest[0] in multiset(rest);
      if rest[0] != x {
        assert rest[0] in multiset(xs[1..]);
        var j :| 0 <= j < |xs[1..]| && xs[1..][j] == rest[0];
        assert xs[j + 1] == rest[0];
      }
    }
  }

  /** Go's `sort.Strings`, as an insertion sort. `SortIsUnique` shows that
      every correct sort returns this same sequence. */
  function Sort(xs: seq<string>): (r: seq<string>)
    ensures Sorted(r)
    ensures multiset(r) == multiset(xs)
    ensures |r| == |xs|
  {
    if |xs| == 0 then []
    else
      assert xs == xs[..|xs| - 1] + [xs[|xs| - 1]];
      Insert(xs[|xs| - 1], Sort(xs[..|xs| - 1]))
  }

  /** A sorted arrangement of a multiset of strings is unique. */
  lemma {:induction false} SortIsUnique(a: seq<string>, b: seq<string>)
    requires Sorted(a) && Sorted(b)
    requires multiset(a) == multiset(b)
    ensures a == b
    decreases |a|
  {
    if |a| > 0 {
      HeadsAgree(a, b);
      TailsAgree(a, b);
      SortIsUnique(a[1..], b[1..]);
      assert a == [a[0]] + a[1..] && b == [b[0]] + b[1..];
    }
  }

  lemma TailsAgree(a: seq<string>, b: seq<string>)
    requires |a| > 0 && |b| > 0 && a[0] == b[0]
    requires multiset(a) == multiset(b)
    ensures multiset(a[1..]) == multiset(b[1..])
  {
    assert a == [a[0]] + a[1..] && b == [b[0]] + b[1..];
    assert multiset(a[1..]) == multiset(a) - multiset{a[0]};
    assert multiset(b[1..]) == multiset(b) - multiset{b[0]};
  }

  /** Two sorted arrangements of the same non-empty multiset start alike. */
  lemma HeadsAgree(a: seq<string>, b: seq<string>)
    requires Sorted(a) && Sorted(b)
    requires multiset(a) == multiset(b)
    requires |a| > 0
    ensures |b| > 0 && a[0] == b[0]
  {
    assert a[0] in multiset(a);
    assert a[0] in multiset(b);
    var j :| 0 <= j < |b| && b[j] == a[0];
    assert b[0] in multiset(b);
    var i :| 0 <= i < |a| && a[i] == b[0];
    if i > 0 && j > 0 {
      BelowAntisymmetric(a[0], b[0]);
    }
  }

  /** Sorting a sequence without duplicates yields a strictly increasing one. */
  lemma SortedDistinct(xs: seq<string>)
    requires Distinct(xs)
    ensures Distinct(Sort(xs))
  {
    var r := Sort(xs);
    forall i, j | 0 <= i < j < |r|
      ensures r[i] != r[j]
    {
      if r[i] == r[j] {
        RepeatCountsTwice(r, i, j);
        DistinctCountsOnce(xs, r[i]);
        assert false;
      }
    }
  }

  lemma RepeatCountsTwice(r: seq<string>, i: int, j: int)
    requires 0 <= i < j < |r| && r[i] == r[j]
    ensures multiset(r)[r[i]] >= 2
  {
    assert r == r[..j] + r[j..];
    assert r[i] == r[..j][i];
    assert r[j] == r[j..][0];
    assert multiset(r) == multiset(r[..j]) + multiset(r[j..]);
  }

  lemma {:induction false} DistinctCountsOnce(xs: seq<string>, x: string)
    requires Distinct(xs)
    ensures multiset(xs)[x] <= 1
    decreases |xs|
  {
    if |xs| > 0 {
      assert xs == [xs[0]] + xs[1..];
      DistinctCountsOnce(xs[1..], x);
      if xs[0] == x {
        assert x !in xs[1..];
      }
    }
  }

  /** Two duplicate-free sequences with the same elements are permutations
      of each other. */
  lemma {:induction false} DistinctSameElements(a: seq<string>, b: seq<string>)
    requires Distinct(a) && Distinct(b)
    requires forall x :: x in a <==> x in b
    ensures multiset(a) == multiset(b)
  {
    forall x
      ensures multiset(a)[x] == multiset(b)[x]
    {
      DistinctCountsOnce(a, x);
      DistinctCountsOnce(b, x);
      assert x in a <==> x in multiset(a);
      assert x in b <==> x in multiset(b);
    }
  }

  /** Sorting a duplicate-free sequence gives the sorted elements of its set. */
  lemma SortOfDistinct(xs: seq<string>, s: set<string>)
    requires Distinct(xs)
    requires forall x :: x in xs <==> x in s
    ensures Sort(xs) == SortedElements(s)
  {
    SortedDistinct(xs);
    assert forall x :: x in Sort(xs) <==> x in multiset(xs);
    DistinctSameElements(Sort(xs), SortedElements(s));
    SortIsUnique(Sort(xs), SortedElements(s));
  }

  /** The smallest element of a non-empty finite set. */
  function Least(s: set<string>): (m: string)
    requires s != {}
    ensures m in s
    ensures forall y :: y in s ==> Below(m, y)
  {
    LeastExists(s);
    BelowIsTotalOrder();
    var m :| m in s && forall y :: y in s ==> Below(m, y);
    m
  }

  lemma {:induction false} LeastExists(s: set<string>)
    requires s != {}
    ensures exists m :: m in s && forall y :: y in s ==> Below(m, y)
    decreases |s|
  {
    var x :| x in s;
    BelowIsTotalOrder();
    if s - {x} == {} {
      assert s == {x};
      BelowReflexive(x);
    } else {
      LeastExists(s - {x});
      var m :| m in s - {x} && forall y :: y in s - {x} ==> Below(m, y);
      if Below(m, x) {
        assert forall y :: y in s ==> Below(m, y);
      } else {
        BelowReflexive(x);
        assert forall y :: y in s ==> Below(x, y);
      }
    }
  }

  /** The elements of a set in increasing order (Go's `sets.String.List()`). */
  function SortedElements(s: set<string>): (r: seq<string>)
    ensures Sorted(r) && Distinct(r)
    ensures forall x :: x in r <==> x in s
    ensures |r| == |s|
    decreases |s|
  {
    if s == {} then []
    else
      var m := Least(s);
      var rest := SortedElements(s - {m});
      PrependLeast(s, m, rest);
      [m] + rest
  }

  lemma PrependLeast(s: set<string>, m: string, rest: seq<string>)
    requires m in s && forall y :: y in s ==> Below(m, y)
    requires Sorted(rest) && Distinct(rest)
    requires forall x :: x in rest <==> x in s - {m}
    ensures Sorted([m] + rest) && Distinct([m] + rest)
    ensures forall x :: x in [m] + rest <==> x in s
  {
    forall k | 0 <= k < |rest|
      ensures Below(m, rest[k]) && rest[k] != m
    {
      assert rest[k] in rest;
    }
  }

  /** Go's `strings.Join(xs, sep)`. */
  function Join(xs: seq<string>, sep: string): (r: string)
    ensures |xs| == 0 ==> r == ""
    ensures |xs| == 1 ==> r == xs[0]
  {
    if |xs| == 0 then ""
    else if |xs| == 1 then xs[0]
    else xs[0] + sep + Join(xs[1..], sep)
  }

  /** Go's `strings.Split(s, string(c))` for a single-character separator;
      the partner of `Join` used to read a role signature back. */
  function Split(s: string, c: char): (r: seq<string>)
    ensures |r| >= 1
    ensures forall i :: 0 <= i < |r| ==> c !in r[i]
    decreases |s|
  {
    if |s| == 0 then [""]
    else
      var rest := Split(s[1..], c);
      if s[0] == c then [""] + rest
      else [[s[0]] + rest[0]] + rest[1..]
  }

  lemma {:induction false} SplitNoSeparator(s: string, c: char)
    requires c !in s
    ensures Split(s, c) == [s]
    decreases |s|
  {
    if |s| > 0 {
      SplitNoSeparator(s[1..], c);
      assert s == [s[0]] + s[1..];
    }
  }

  lemma {:induction false} SplitAppend(a: string, c: char, b: string)
    requires c !in a
    ensures Split(a + [c] + b, c) == [a] + Split(b, c)
    decreases |a|
  {
    if |a| == 0 {
      assert a + [c] + b == [c] + b;
      assert (a + [c] + b)[1..] == b;
    } else {
      assert (a + [c] + b)[1..] == a[1..] + [c] + b;
      SplitAppend(a[1..], c, b);
      assert a == [a[0]] + a[1..];
    }
  }

  /** Joining with a one-character separator that no element contains can be
      undone by splitting, so the joined signature determines the list. */
  lemma {:induction false} SplitJoin(xs: seq<string>, c: char)
    requires |xs| >= 1
    requires forall i :: 0 <= i < |xs| ==> c !in xs[i]
    ensures Split(Join(xs, [c]), c) == xs
    decreases |xs|
  {
    if |xs| == 1 {
      SplitNoSeparator(xs[0], c);
    } else {
      SplitJoin(xs[1..], c);
      SplitAppend(xs[0], c, Join(xs[1..], [c]));
      assert xs == [xs[0]] + xs[1..];
    }
  }

  lemma JoinInjective(xs: seq<string>, ys: seq<string>, c: char)
    requires |xs| >= 1 && |ys| >= 1
    requires forall i :: 0 <= i < |xs| ==> c !in xs[i]
    requires forall i :: 0 <= i < |ys| ==> c !in ys[i]
    requires Join(xs, [c]) == Join(ys, [c])
    ensures xs == ys
  {
    SplitJoin(xs, c);
    SplitJoin(ys, c);
  }
}

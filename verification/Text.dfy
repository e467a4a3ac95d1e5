/**
 Strings as the Go programs use them: prefix and suffix tests, the order of
 `sort.Strings`, splitting at a separator and trimming blanks.

 Go compares strings byte by byte. UTF-8 keeps the order of code points, so the
 order on sequences of `char` below is the same one.
 */
module Text {

  predicate HasPrefix(s: string, p: string) {
    p <= s
  }

  predicate HasSuffix(s: string, p: string) {
    |p| <= |s| && s[|s| - |p|..] == p
  }

  predicate Contains(s: string, t: string) {
    exists i :: 0 <= i <= |s| - |t| && t <= s[i..]
  }

  predicate Free(c: char, s: string) {
    c !in s
  }

  ghost predicate Distinct<T>(s: seq<T>) {
    forall i, j :: 0 <= i < j < |s| ==> s[i] != s[j]
  }

  function Elements<T>(s: seq<T>): set<T> {
    set x | x in s
  }

  lemma {:induction false} DistinctCount<T>(s: seq<T>)
    requires Distinct(s)
    ensures |Elements(s)| == |s|
  {
    if s != [] {
      var init := s[..|s| - 1];
      DistinctCount(init);
      assert s == init + [s[|s| - 1]];
      assert Elements(s) == Elements(init) + {s[|s| - 1]};
      assert s[|s| - 1] !in init;
    }
  }

  // ----- at most one way to cut a string at a separator -----

  /** The part before the first `c` is determined by the whole string. */
  lemma FirstCut(c: char, a: string, b: string, s: string)
    requires Free(c, a) && Free(c, b)
    requires a + [c] <= s && b + [c] <= s
    ensures a == b
  {
    assert s[|a|] == (a + [c])[|a|] == c;
    assert s[|b|] == (b + [c])[|b|] == c;
    assert forall k :: 0 <= k < |a| ==> s[k] == (a + [c])[k] == a[k];
    assert forall k :: 0 <= k < |b| ==> s[k] == (b + [c])[k] == b[k];
    assert |a| == |b|;
  }

  /** The part after the last `c` is determined by the whole string. */
  lemma LastCut(c: char, x: string, a: string, y: string, b: string)
    requires Free(c, a) && Free(c, b)
    requires x + [c] + a == y + [c] + b
    ensures x == y && a == b
  {
    var s, t := x + [c] + a, y + [c] + b;
    assert s[|x|] == c && t[|y|] == c;
    assert forall k :: |x| < k < |s| ==> s[k] == a[k - |x| - 1];
    assert forall k :: |y| < k < |t| ==> t[k] == b[k - |y| - 1];
    assert |x| == |y|;
    assert x == s[..|x|] && y == t[..|x|];
    assert a == s[|x| + 1..] && b == t[|x| + 1..];
  }

  // ----- order -----

  /** `a <= b` for Go strings. */
  predicate Le(a: string, b: string) {
    a == "" || (b != "" && (a[0] < b[0] || (a[0] == b[0] && Le(a[1..], b[1..]))))
  }

  predicate Lt(a: string, b: string) {
    Le(a, b) && a != b
  }

  lemma LeReflexive(a: string)
    ensures Le(a, a)
  {
  }

  lemma {:induction false} LeAntisymmetric(a: string, b: string)
    requires Le(a, b) && Le(b, a)
    ensures a == b
  {
    if a != "" {
      LeAntisymmetric(a[1..], b[1..]);
      assert a == [a[0]] + a[1..] && b == [b[0]] + b[1..];
    }
  }

  lemma {:induction false} LeTransitive(a: string, b: string, c: string)
    requires Le(a, b) && Le(b, c)
    ensures Le(a, c)
  {
    if a != "" && a[0] == b[0] && b[0] == c[0] {
      LeTransitive(a[1..], b[1..], c[1..]);
    }
  }

  lemma {:induction false} LeTotal(a: string, b: string)
    ensures Le(a, b) || Le(b, a)
  {
    if a != "" && b != "" {
      LeTotal(a[1..], b[1..]);
    }
  }

  /** For parts of equal width, the first part decides unless it is the same. */
  lemma {:induction false} LeFixedWidth(a: string, x: string, b: string, y: string)
    requires |a| == |b|
    ensures Le(a + x, b + y) <==> (Lt(a, b) || (a == b && Le(x, y)))
  {
    if a == "" {
      assert a + x == x && b + y == y;
    } else {
      LeFixedWidth(a[1..], x, b[1..], y);
      assert (a + x)[1..] == a[1..] + x && (b + y)[1..] == b[1..] + y;
      assert a == [a[0]] + a[1..] && b == [b[0]] + b[1..];
    }
  }

  lemma LeCommonPrefix(p: string, x: string, y: string)
    ensures Le(p + x, p + y) <==> Le(x, y)
  {
    LeFixedWidth(p, x, p, y);
  }

  /** The order in full: a prefix comes first, and otherwise the first character that differs
      decides. */
  lemma LeExactly(p: string, x: string, y: string)
    ensures Le(p, p + x)
    ensures x != "" && y != "" && x[0] != y[0] ==> (Le(p + x, p + y) <==> x[0] < y[0])
  {
    LeCommonPrefix(p, "", x);
    LeCommonPrefix(p, x, y);
    assert p + "" == p;
  }

  // ----- sort.Strings -----

  ghost predicate Sorted(s: seq<string>) {
    forall i, j :: 0 <= i < j < |s| ==> Le(s[i], s[j])
  }

  function Insert(x: string, s: seq<string>): (r: seq<string>)
    ensures multiset(r) == multiset(s) + multiset{x}
    ensures |r| == |s| + 1
  {
    if s == [] then [x]
    else if Le(x, s[0]) then [x] + s
    else
      assert s == [s[0]] + s[1..];
      [s[0]] + Insert(x, s[1..])
  }

  /** A sorted permutation; SortUnique shows that there is only one. */
  function Sort(s: seq<string>): (r: seq<string>)
    ensures multiset(r) == multiset(s)
    ensures |r| == |s|
  {
    if s == [] then []
    else
      assert s == [s[0]] + s[1..];
      Insert(s[0], Sort(s[1..]))
  }

  lemma {:induction false} InsertSorted(x: string, s: seq<string>)
    requires Sorted(s)
    ensures Sorted(Insert(x, s))
  {
    if s == [] {
    } else if Le(x, s[0]) {
      forall j | 0 <= j < |s| ensures Le(x, s[j]) {
        if j > 0 { LeTransitive(x, s[0], s[j]); }
      }
    } else {
      InsertSorted(x, s[1..]);
      LeTotal(x, s[0]);
      var t := Insert(x, s[1..]);
      forall j | 0 <= j < |t| ensures Le(s[0], t[j]) {
        assert t[j] in multiset(t);
        assert t[j] == x || t[j] in s[1..];
      }
    }
  }

  lemma {:induction false} SortSorted(s: seq<string>)
    ensures Sorted(Sort(s))
  {
    if s != [] {
      SortSorted(s[1..]);
      InsertSorted(s[0], Sort(s[1..]));
    }
  }

  lemma FirstIsLeast(s: seq<string>, x: string)
    requires Sorted(s) && x in s
    ensures Le(s[0], x)
  {
    LeReflexive(x);
  }

  lemma SameFirst(a: seq<string>, b: seq<string>)
    requires a != [] && b != [] && Sorted(a) && Sorted(b)
    requires a[0] in b && b[0] in a
    ensures a[0] == b[0]
  {
    FirstIsLeast(a, b[0]);
    FirstIsLeast(b, a[0]);
    LeAntisymmetric(a[0], b[0]);
  }

  /** The order in which equal elements are compared does not matter: a multiset
      has one sorted arrangement. */
  lemma {:induction false} SortUnique(a: seq<string>, b: seq<string>)
    requires Sorted(a) && Sorted(b) && multiset(a) == multiset(b)
    ensures a == b
  {
    assert |a| == |multiset(a)| == |multiset(b)| == |b|;
    if a != [] {
      assert a[0] in multiset(b) && b[0] in multiset(a);
      SameFirst(a, b);
      assert a == [a[0]] + a[1..] && b == [b[0]] + b[1..];
      assert multiset(a[1..]) == multiset(a) - multiset{a[0]};
      assert multiset(b[1..]) == multiset(b) - multiset{a[0]};
      SortUnique(a[1..], b[1..]);
    }
  }

  lemma PermutedElements(s: seq<string>, r: seq<string>)
    requires multiset(s) == multiset(r)
    ensures Elements(s) == Elements(r)
  {
    forall x ensures x in s <==> x in r {
      assert x in multiset(s) <==> x in multiset(r);
    }
  }

  lemma PermutedDistinct(s: seq<string>, r: seq<string>)
    requires multiset(s) == multiset(r) && Distinct(s)
    ensures Distinct(r)
  {
    DistinctMultiplicity(s);
    forall i, j | 0 <= i < j < |r| ensures r[i] != r[j] {
      assert r == r[..j] + [r[j]] + r[j + 1..];
      assert r[i] in r[..j];
      assert multiset(r)[r[i]] <= 1;
    }
  }

  lemma SortElements(s: seq<string>)
    ensures Elements(Sort(s)) == Elements(s)
  {
    PermutedElements(s, Sort(s));
  }

  lemma SortDistinct(s: seq<string>)
    requires Distinct(s)
    ensures Distinct(Sort(s))
  {
    PermutedDistinct(s, Sort(s));
  }

  lemma {:induction false} DistinctMultiplicity<T>(s: seq<T>)
    requires Distinct(s)
    ensures forall x :: multiset(s)[x] <= 1
  {
    if s != [] {
      DistinctMultiplicity(s[1..]);
      assert s == [s[0]] + s[1..];
    }
  }
}

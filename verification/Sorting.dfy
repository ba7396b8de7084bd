/** `sort()` on strings: UTF-16 code unit order, and what a sorted list is determined by. */
module Sorting {
  /** Where a character stands among others: the order of their UTF-16 code units, surrogates before U+E000. */
  function Rank(c: char): int {
    var n := c as int;
    if n < 0xD800 then n else if n >= 0x10000 then n - 0x10000 + 0xD800 else n + 0x100000
  }

  lemma RankDistinguishes(c: char, d: char)
    ensures Rank(c) == Rank(d) <==> c == d
  {
  }

  /** The UTF-16 code units of a character. */
  function Units(c: char): seq<int> {
    var n := c as int;
    if n < 0x10000 then [n] else [0xD800 + (n - 0x10000) / 0x400, 0xDC00 + (n - 0x10000) % 0x400]
  }

  /** The order of two characters is that of their first code units, and of their second ones where the first are the same. */
  lemma RankIsUnitOrder(c: char, d: char)
    ensures Rank(c) < Rank(d) <==>
      Units(c)[0] < Units(d)[0] || (Units(c)[0] == Units(d)[0] && |Units(c)| == |Units(d)| == 2 && Units(c)[1] < Units(d)[1])
  {
    var m, n := c as int - 0x10000, d as int - 0x10000;
    if m >= 0 && n >= 0 {
      assert m == 0x400 * (m / 0x400) + m % 0x400 && n == 0x400 * (n / 0x400) + n % 0x400;
    }
  }

  predicate AtMost(a: string, b: string) {
    a == "" || (b != "" && (Rank(a[0]) < Rank(b[0]) || (a[0] == b[0] && AtMost(a[1..], b[1..]))))
  }

  lemma {:induction false} Total(a: string, b: string)
    ensures AtMost(a, b) || AtMost(b, a)
    ensures AtMost(a, b) && AtMost(b, a) ==> a == b
  {
    if a != "" && b != "" {
      RankDistinguishes(a[0], b[0]);
      Total(a[1..], b[1..]);
      assert a == [a[0]] + a[1..] && b == [b[0]] + b[1..];
    }
  }

  lemma {:induction false} Transitive(a: string, b: string, c: string)
    requires AtMost(a, b) && AtMost(b, c)
    ensures AtMost(a, c)
  {
    if a != "" && a[0] == b[0] && b[0] == c[0] {
      Transitive(a[1..], b[1..], c[1..]);
    }
  }

  predicate IsSorted(s: seq<string>) {
    forall i, j :: 0 <= i < j < |s| ==> AtMost(s[i], s[j])
  }

  function Insert(x: string, s: seq<string>): (r: seq<string>)
    ensures multiset(r) == multiset(s) + multiset{x}
  {
    if s == [] then [x]
    else if AtMost(x, s[0]) then [x] + s
    else
      assert s == [s[0]] + s[1..];
      [s[0]] + Insert(x, s[1..])
  }

  function Sort(s: seq<string>): (r: seq<string>)
    ensures multiset(r) == multiset(s) && |r| == |s|
    ensures forall x :: x in r <==> x in s
  {
    if s == [] then []
    else
      assert s == [s[0]] + s[1..];
      var r := Insert(s[0], Sort(s[1..]));
      SameMultiset(r, s);
      r
  }

  lemma SameMultiset<T>(a: seq<T>, b: seq<T>)
    requires multiset(a) == multiset(b)
    ensures |a| == |b| && forall x :: x in a <==> x in b
  {
    assert |multiset(a)| == |a| && |multiset(b)| == |b|;
    forall x
      ensures x in a <==> x in b
    {
      assert x in a <==> x in multiset(a);
      assert x in b <==> x in multiset(b);
    }
  }

  lemma {:induction false} InsertSorts(x: string, s: seq<string>)
    requires IsSorted(s)
    ensures IsSorted(Insert(x, s))
  {
    if s != [] {
      var rest := s[1..];
      if AtMost(x, s[0]) {
        forall i | 0 <= i < |s|
          ensures AtMost(x, s[i])
        {
          if i > 0 { Transitive(x, s[0], s[i]); }
        }
      } else {
        Total(x, s[0]);
        InsertSorts(x, rest);
        var r := Insert(x, rest);
        forall i | 0 <= i < |r|
          ensures AtMost(s[0], r[i])
        {
          assert r[i] in multiset(rest) + multiset{x};
          if r[i] != x {
            assert r[i] in rest;
          }
        }
      }
    }
  }

  lemma {:induction false} SortSorts(s: seq<string>)
    ensures IsSorted(Sort(s))
  {
    if s != [] {
      SortSorts(s[1..]);
      InsertSorts(s[0], Sort(s[1..]));
    }
  }

  /** A sorted list is determined by what it holds. */
  lemma {:induction false} SortedIsUnique(a: seq<string>, b: seq<string>)
    requires IsSorted(a) && IsSorted(b) && multiset(a) == multiset(b)
    ensures a == b
  {
    SameMultiset(a, b);
    if a != [] {
      assert a[0] in b && b[0] in a;
      Total(a[0], a[0]);
      Total(b[0], b[0]);
      Total(a[0], b[0]);
      assert AtMost(a[0], b[0]) && AtMost(b[0], a[0]);
      assert a == [a[0]] + a[1..] && b == [b[0]] + b[1..];
      assert multiset(a[1..]) == multiset(a) - multiset{a[0]};
      assert multiset(b[1..]) == multiset(b) - multiset{b[0]};
      SortedIsUnique(a[1..], b[1..]);
    }
  }

  /** Two lists sort to the same list exactly when they hold the same, whatever their order. */
  lemma SortForgetsOrder(a: seq<string>, b: seq<string>)
    ensures Sort(a) == Sort(b) <==> multiset(a) == multiset(b)
  {
    SortSorts(a);
    SortSorts(b);
    if multiset(a) == multiset(b) {
      SortedIsUnique(Sort(a), Sort(b));
    }
  }
}

/**
 * The parts of Python's `str` that the modelled code relies on: case
 * mapping of single characters, code-point order, and the built-in
 * `sorted` on a list of strings.
 */
module Strings {

  /**
   * `c.lower()` as far as it can change what the modelled code does: ASCII
   * letters, and KELVIN SIGN, the one other character whose lower case is an
   * ASCII letter ('k'). Every other character is left as it is.
   */
  function LowerChar(c: char): char {
    if 'A' <= c <= 'Z' then (c as int + 32) as char
    else if c == '\U{212A}' then 'k'
    else c
  }

  /** `c.upper()` for ASCII letters; every other character is left as it is. */
  function UpperChar(c: char): char {
    if 'a' <= c <= 'z' then (c as int - 32) as char else c
  }

  /** `s.lower()`, character by character. */
  function Lower(s: string): (r: string)
    ensures |r| == |s|
    ensures forall i :: 0 <= i < |s| ==> r[i] == LowerChar(s[i])
  {
    seq(|s|, i requires 0 <= i < |s| => LowerChar(s[i]))
  }

  /** Python's `a <= b` on strings: lexicographic order on code points. */
  predicate StrLe(a: string, b: string)
    decreases |a|
  {
    a == [] || (b != [] && (a[0] < b[0] || (a[0] == b[0] && StrLe(a[1..], b[1..]))))
  }

  lemma {:induction false} StrLeTotal(a: string, b: string)
    ensures StrLe(a, b) || StrLe(b, a)
    decreases |a|
  {
    if a != [] && b != [] && a[0] == b[0] {
      StrLeTotal(a[1..], b[1..]);
    }
  }

  lemma {:induction false} StrLeAntisymmetric(a: string, b: string)
    requires StrLe(a, b) && StrLe(b, a)
    ensures a == b
    decreases |a|
  {
    if a != [] && b != [] {
      StrLeAntisymmetric(a[1..], b[1..]);
      assert a == [a[0]] + a[1..] && b == [b[0]] + b[1..];
    }
  }

  lemma {:induction false} StrLeTransitive(a: string, b: string, c: string)
    requires StrLe(a, b) && StrLe(b, c)
    ensures StrLe(a, c)
    decreases |a|
  {
    if a != [] && b != [] && c != [] && a[0] == b[0] && b[0] == c[0] {
      StrLeTransitive(a[1..], b[1..], c[1..]);
    }
  }

  /** Every string is at most every later one. */
  ghost predicate IsSorted(s: seq<string>) {
    forall i, j :: 0 <= i < j < |s| ==> StrLe(s[i], s[j])
  }

  /** `x` placed into the sorted `ys` before the first element it is at most. */
  function Insert(x: string, ys: seq<string>): (r: seq<string>)
    requires IsSorted(ys)
    ensures IsSorted(r)
    ensures multiset(r) == multiset(ys) + multiset{x}
    decreases |ys|
  {
    if ys == [] then [x]
    else if StrLe(x, ys[0]) then
      BelowHead(x, ys);
      ConsSorted(x, ys);
      [x] + ys
    else
      var rest := Insert(x, ys[1..]);
      assert ys == [ys[0]] + ys[1..];
      StrLeTotal(x, ys[0]);
      HeadBelowInsert(ys, x, rest);
      ConsSorted(ys[0], rest);
      [ys[0]] + rest
  }

  /** At most the head of a sorted list is at most all of it. */
  lemma BelowHead(x: string, ys: seq<string>)
    requires IsSorted(ys) && ys != [] && StrLe(x, ys[0])
    ensures forall z :: z in ys ==> StrLe(x, z)
  {
    forall z | z in ys ensures StrLe(x, z) {
      var j :| 0 <= j < |ys| && ys[j] == z;
      if j > 0 {
        StrLeTransitive(x, ys[0], ys[j]);
      }
    }
  }

  /** The head of a sorted list is at most every element of its tail with `x` inserted. */
  lemma HeadBelowInsert(ys: seq<string>, x: string, rest: seq<string>)
    requires IsSorted(ys) && ys != [] && StrLe(ys[0], x)
    requires multiset(rest) == multiset(ys[1..]) + multiset{x}
    ensures forall z :: z in rest ==> StrLe(ys[0], z)
  {
    forall z | z in rest ensures StrLe(ys[0], z) {
      assert z in multiset(rest);
      if z != x {
        assert z in multiset(ys[1..]);
        var j :| 0 <= j < |ys[1..]| && ys[1..][j] == z;
        assert ys[j + 1] == z;
      }
    }
  }

  /** A sorted list with an element in front that is at most all of it is sorted. */
  lemma ConsSorted(y: string, rest: seq<string>)
    requires IsSorted(rest) && forall z :: z in rest ==> StrLe(y, z)
    ensures IsSorted([y] + rest)
  {
    forall i, j | 0 <= i < j < |[y] + rest| ensures StrLe(([y] + rest)[i], ([y] + rest)[j]) {
      assert ([y] + rest)[j] == rest[j - 1];
      if i > 0 {
        assert ([y] + rest)[i] == rest[i - 1];
      }
    }
  }

  /** The built-in `sorted` on a list of strings. */
  function SortStrings(xs: seq<string>): (r: seq<string>)
    ensures IsSorted(r)
    ensures multiset(r) == multiset(xs)
    decreases |xs|
  {
    if xs == [] then []
    else
      assert xs == [xs[0]] + xs[1..];
      Insert(xs[0], SortStrings(xs[1..]))
  }

  /** A multiset has one sorted arrangement: `sorted` ignores the input order. */
  lemma {:induction false} SortedUnique(a: seq<string>, b: seq<string>)
    requires IsSorted(a) && IsSorted(b)
    requires multiset(a) == multiset(b)
    ensures a == b
    decreases |a|
  {
    assert |b| == |multiset(b)| == |multiset(a)| == |a|;
    if a != [] {
      SortedHeadsEqual(a, b);
      SameTail(a, b);
      SortedUnique(a[1..], b[1..]);
      assert a == [a[0]] + a[1..] && b == [b[0]] + b[1..];
    }
  }

  lemma SortedHeadsEqual(a: seq<string>, b: seq<string>)
    requires IsSorted(a) && IsSorted(b)
    requires a != [] && b != [] && multiset(a) == multiset(b)
    ensures a[0] == b[0]
  {
    assert a[0] in multiset(b);
    assert b[0] in multiset(a);
    var i :| 0 <= i < |b| && b[i] == a[0];
    var j :| 0 <= j < |a| && a[j] == b[0];
    assert StrLe(b[0], a[0]) by {
      if i == 0 { StrLeTotal(b[0], a[0]); }
    }
    assert StrLe(a[0], b[0]) by {
      if j == 0 { StrLeTotal(a[0], b[0]); }
    }
    StrLeAntisymmetric(a[0], b[0]);
  }

  lemma SameTail(a: seq<string>, b: seq<string>)
    requires a != [] && b != [] && a[0] == b[0] && multiset(a) == multiset(b)
    ensures multiset(a[1..]) == multiset(b[1..])
  {
    assert a == [a[0]] + a[1..] && b == [b[0]] + b[1..];
    assert multiset(a) == multiset{a[0]} + multiset(a[1..]);
    assert multiset(b) == multiset{a[0]} + multiset(b[1..]);
    forall z ensures multiset(a[1..])[z] == multiset(b[1..])[z] {
      assert multiset(a)[z] == multiset(b)[z];
    }
  }
}

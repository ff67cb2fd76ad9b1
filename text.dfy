/** The string primitives the provisioner leans on: `String.prototype.split`
    with a one-character separator, `Array.prototype.join`, dropping empty
    lines, decimal digit strings (`Number(s)` and `String(n)` on them) and the
    default `Array.prototype.sort` order on strings. */
module Text {

  /* ---------------------------------------------------------------------- */
  /* split and join                                                          */
  /* ---------------------------------------------------------------------- */

  /** `parts.join(sep)`: the parts with `sep` between neighbours. */
  function Join(parts: seq<string>, sep: string): string
  {
    if |parts| == 0 then ""
    else if |parts| == 1 then parts[0]
    else parts[0] + sep + Join(parts[1..], sep)
  }

  /** `s.split(sep)` for a one-character separator: the maximal runs between
      separators, so "" gives [""] and "a::b" gives ["a", "", "b"]. */
  function Split(s: string, sep: char): (parts: seq<string>)
    ensures |parts| >= 1
    ensures forall i :: 0 <= i < |parts| ==> sep !in parts[i]
    ensures Join(parts, [sep]) == s
  {
    if |s| == 0 then [""]
    else
      var rest := Split(s[1..], sep);
      if s[0] == sep then
        assert Join([""] + rest, [sep]) == [sep] + Join(rest, [sep]) by {
          assert ([""] + rest)[1..] == rest;
        }
        assert s == [s[0]] + s[1..];
        [""] + rest
      else
        var parts := [[s[0]] + rest[0]] + rest[1..];
        assert Join(parts, [sep]) == [s[0]] + Join(rest, [sep]) by {
          assert parts[1..] == rest[1..];
        }
        assert s == [s[0]] + s[1..];
        parts
  }

  /** Splitting undoes joining whenever no part contains the separator. */
  lemma {:induction false} SplitJoin(parts: seq<string>, sep: char)
    requires |parts| >= 1
    requires forall i :: 0 <= i < |parts| ==> sep !in parts[i]
    ensures Split(Join(parts, [sep]), sep) == parts
  {
    if |parts| == 1 {
      SplitNoSeparator(parts[0], sep);
    } else {
      SplitJoin(parts[1..], sep);
      SplitAfterPrefix(parts[0], Join(parts[1..], [sep]), sep);
      assert Join(parts, [sep]) == parts[0] + [sep] + Join(parts[1..], [sep]);
      assert parts == [parts[0]] + parts[1..];
    }
  }

  lemma {:induction false} SplitNoSeparator(s: string, sep: char)
    requires sep !in s
    ensures Split(s, sep) == [s]
  {
    if |s| > 0 {
      SplitNoSeparator(s[1..], sep);
      assert [s[0]] + s[1..] == s;
    }
  }

  /** Splitting `p + sep + q`, with no separator in `p`, puts `p` in front of
      the parts of `q`. */
  lemma {:induction false} SplitAfterPrefix(p: string, q: string, sep: char)
    requires sep !in p
    ensures Split(p + [sep] + q, sep) == [p] + Split(q, sep)
  {
    if |p| == 0 {
      assert ([] + [sep] + q)[1..] == q;
    } else {
      SplitAfterPrefix(p[1..], q, sep);
      assert (p + [sep] + q)[1..] == p[1..] + [sep] + q;
      assert [p[0]] + p[1..] == p;
    }
  }

  /** `xs.filter((l) => l)`: the non-empty strings, in order. */
  function NonEmpty(xs: seq<string>): (r: seq<string>)
    ensures forall i :: 0 <= i < |r| ==> r[i] != ""
    ensures forall x :: x in r <==> x in xs && x != ""
    ensures multiset(r) == multiset(xs)["" := 0]
    ensures |r| <= |xs|
  {
    if |xs| == 0 then []
    else
      assert xs == [xs[0]] + xs[1..];
      if xs[0] == "" then NonEmpty(xs[1..])
      else [xs[0]] + NonEmpty(xs[1..])
  }

  /** The filter keeps the order: filtering a concatenation concatenates the
      filtered parts, and a list without empty strings is kept whole. */
  lemma {:induction false} NonEmptyAppend(a: seq<string>, b: seq<string>)
    ensures NonEmpty(a + b) == NonEmpty(a) + NonEmpty(b)
  {
    if |a| > 0 {
      assert (a + b)[1..] == a[1..] + b;
      NonEmptyAppend(a[1..], b);
    } else {
      assert a + b == b;
    }
  }

  lemma {:induction false} NonEmptyKeepsAll(xs: seq<string>)
    requires "" !in xs
    ensures NonEmpty(xs) == xs
  {
    if |xs| > 0 {
      NonEmptyKeepsAll(xs[1..]);
    }
  }

  /** `s.split("\n").filter((l) => l)`: the non-blank lines of a file. */
  function Lines(s: string): seq<string>
  {
    NonEmpty(Split(s, '\n'))
  }

  /** A line of `Lines(s)` is a non-empty, newline-free piece of `s`, and
      every such piece is a line. */
  lemma LinesAreNonBlankPieces(s: string, l: string)
    ensures l in Lines(s) <==> l in Split(s, '\n') && l != ""
    ensures l in Lines(s) ==> '\n' !in l
  {
  }

  /** The elements of `xs` other than `x`, in order (`xs.filter((g) => g !== x)`). */
  function Without<T(==)>(xs: seq<T>, x: T): (r: seq<T>)
    ensures multiset(r) == multiset(xs)[x := 0]
  {
    if |xs| == 0 then []
    else
      assert xs == [xs[0]] + xs[1..];
      if xs[0] == x then Without(xs[1..], x) else [xs[0]] + Without(xs[1..], x)
  }

  /* ---------------------------------------------------------------------- */
  /* decimal digit strings                                                   */
  /* ---------------------------------------------------------------------- */

  predicate IsDigit(c: char) { '0' <= c <= '9' }

  /** One or more ASCII digits: the strings `Number` turns into a whole number. */
  predicate IsDigits(s: string)
  {
    |s| > 0 && forall i :: 0 <= i < |s| ==> IsDigit(s[i])
  }

  /** The value of a digit string, most significant digit first (`Number(s)`). */
  function DigitsValue(s: string): nat
    requires forall i :: 0 <= i < |s| ==> IsDigit(s[i])
  {
    if |s| == 0 then 0
    else
      assert IsDigit(s[|s| - 1]);
      DigitsValue(s[..|s| - 1]) * 10 + ((s[|s| - 1] as int) - ('0' as int))
  }

  function DigitChar(d: nat): (c: char)
    requires d < 10
    ensures IsDigit(c) && (c as int) - ('0' as int) == d
  {
    (('0' as int) + d) as char
  }

  /** A digit string without leading zeros: the form `String(n)` produces. */
  predicate IsCanonical(s: string)
  {
    IsDigits(s) && (|s| == 1 || s[0] != '0')
  }

  /** `String(n)` for a whole number: its canonical decimal digits. */
  function Decimal(n: nat): (s: string)
    ensures IsCanonical(s)
    ensures DigitsValue(s) == n
  {
    if n < 10 then [DigitChar(n)]
    else
      var s := Decimal(n / 10) + [DigitChar(n % 10)];
      assert s[..|s| - 1] == Decimal(n / 10);
      s
  }

  /** A canonical digit string is the decimal form of its value; together with
      `Decimal`'s contract this makes the two inverse bijections. */
  lemma {:induction false} CanonicalIsDecimal(s: string)
    requires IsCanonical(s)
    ensures Decimal(DigitsValue(s)) == s
  {
    if |s| > 1 {
      var p := s[..|s| - 1];
      assert IsCanonical(p) by {
        assert p[0] == s[0];
      }
      CanonicalIsDecimal(p);
      CanonicalPositive(p);
      assert DigitsValue(s) >= 10;
      var d := (s[|s| - 1] as int) - ('0' as int);
      assert DigitsValue(s) == DigitsValue(p) * 10 + d;
      assert DigitsValue(s) / 10 == DigitsValue(p);
      assert DigitsValue(s) % 10 == d;
      assert s == p + [s[|s| - 1]];
    }
  }

  /** A digit string with a non-zero leading digit has a positive value. */
  lemma {:induction false} CanonicalPositive(s: string)
    requires IsDigits(s) && s[0] != '0'
    ensures DigitsValue(s) >= 1
  {
    if |s| > 1 {
      var p := s[..|s| - 1];
      assert p[0] == s[0];
      CanonicalPositive(p);
    }
  }

  lemma DecimalInjective(m: nat, n: nat)
    ensures Decimal(m) == Decimal(n) <==> m == n
  {
  }

  /** `k` names index `i` of an array of length `n`: a canonical decimal below `n`. */
  predicate IsIndexKey(k: string, n: nat)
  {
    IsCanonical(k) && DigitsValue(k) < n
  }

  /** The keys `Object.keys` reports for an array or string of length `n`. */
  function IndexKeys(n: nat): (keys: seq<string>)
    ensures |keys| == n
    ensures forall i :: 0 <= i < n ==> keys[i] == Decimal(i)
  {
    if n == 0 then [] else IndexKeys(n - 1) + [Decimal(n - 1)]
  }

  /** A string is one of the first `n` index keys exactly when it is a
      canonical decimal below `n`. */
  lemma IndexKeysMembership(k: string, n: nat)
    ensures k in IndexKeys(n) <==> IsIndexKey(k, n)
  {
    if IsIndexKey(k, n) {
      CanonicalIsDecimal(k);
      assert IndexKeys(n)[DigitsValue(k)] == k;
    }
  }

  /* ---------------------------------------------------------------------- */
  /* the default sort order                                                  */
  /* ---------------------------------------------------------------------- */

  /** Lexicographic order on character codes, the order of `Array.prototype.sort`
      without a comparator. */
  predicate Less(a: string, b: string)
    decreases |a|
  {
    |b| > 0 && (|a| == 0 || a[0] < b[0] || (a[0] == b[0] && Less(a[1..], b[1..])))
  }

  predicate LessEq(a: string, b: string)
  {
    a == b || Less(a, b)
  }

  lemma {:induction false} LessIrreflexive(a: string)
    ensures !Less(a, a)
  {
    if |a| > 0 { LessIrreflexive(a[1..]); }
  }

  lemma {:induction false} LessAsymmetric(a: string, b: string)
    ensures Less(a, b) ==> !Less(b, a)
  {
    if |a| > 0 && |b| > 0 && a[0] == b[0] { LessAsymmetric(a[1..], b[1..]); }
  }

  lemma {:induction false} LessTransitive(a: string, b: string, c: string)
    requires Less(a, b) && Less(b, c)
    ensures Less(a, c)
  {
    if |a| > 0 && a[0] == b[0] && b[0] == c[0] {
      LessTransitive(a[1..], b[1..], c[1..]);
    }
  }

  lemma {:induction false} LessTotal(a: string, b: string)
    ensures a == b || Less(a, b) || Less(b, a)
  {
    if |a| > 0 && |b| > 0 && a[0] == b[0] {
      LessTotal(a[1..], b[1..]);
      if a[1..] == b[1..] {
        assert a == [a[0]] + a[1..] && b == [b[0]] + b[1..];
      }
    }
  }

  lemma LessEqTransitive(a: string, b: string, c: string)
    requires LessEq(a, b) && LessEq(b, c)
    ensures LessEq(a, c)
  {
    if a != b && b != c { LessTransitive(a, b, c); }
  }

  lemma LessEqAntisymmetric(a: string, b: string)
    requires LessEq(a, b) && LessEq(b, a)
    ensures a == b
  {
    LessAsymmetric(a, b);
  }

  predicate Sorted(s: seq<string>)
  {
    forall i, j :: 0 <= i < j < |s| ==> LessEq(s[i], s[j])
  }

  /** `y` is no larger than any element of `s`. */
  predicate LowerBound(y: string, s: seq<string>)
  {
    forall i :: 0 <= i < |s| ==> LessEq(y, s[i])
  }

  lemma SortedCons(y: string, s: seq<string>)
    requires Sorted(s) && LowerBound(y, s)
    ensures Sorted([y] + s)
  {
    forall i, j | 0 <= i < j < |s| + 1
      ensures LessEq(([y] + s)[i], ([y] + s)[j])
    {
      if i > 0 { assert ([y] + s)[i] == s[i - 1]; }
    }
  }

  /** Inserts `x` before the first element not smaller than it. */
  function Insert(x: string, s: seq<string>): (r: seq<string>)
    requires Sorted(s)
    ensures Sorted(r)
    ensures multiset(r) == multiset(s) + multiset{x}
  {
    if |s| == 0 then [x]
    else if LessEq(x, s[0]) then
      InsertFront(x, s);
      [x] + s
    else
      var t := Insert(x, s[1..]);
      InsertBehind(x, s, t);
      [s[0]] + t
  }

  lemma InsertFront(x: string, s: seq<string>)
    requires Sorted(s) && |s| > 0 && LessEq(x, s[0])
    ensures Sorted([x] + s)
  {
    forall j | 0 <= j < |s|
      ensures LessEq(x, s[j])
    {
      LessEqTransitive(x, s[0], s[j]);
    }
    SortedCons(x, s);
  }

  lemma InsertBehind(x: string, s: seq<string>, t: seq<string>)
    requires Sorted(s) && |s| > 0 && !LessEq(x, s[0])
    requires Sorted(t) && multiset(t) == multiset(s[1..]) + multiset{x}
    ensures Sorted([s[0]] + t)
    ensures multiset([s[0]] + t) == multiset(s) + multiset{x}
  {
    LessTotal(x, s[0]);
    assert s == [s[0]] + s[1..];
    forall j | 0 <= j < |t|
      ensures LessEq(s[0], t[j])
    {
      assert t[j] in multiset(t);
      if t[j] != x {
        assert t[j] in multiset(s[1..]);
        var k :| 0 <= k < |s[1..]| && s[1..][k] == t[j];
        assert s[k + 1] == t[j];
      }
    }
    SortedCons(s[0], t);
  }

  /** `xs.sort()` on strings: an insertion sort standing for the library's. */
  function SortStrings(xs: seq<string>): (r: seq<string>)
    ensures Sorted(r)
    ensures multiset(r) == multiset(xs)
  {
    if |xs| == 0 then []
    else
      assert xs == [xs[0]] + xs[1..];
      Insert(xs[0], SortStrings(xs[1..]))
  }

  /** The first element of a sorted list is no larger than any element. */
  lemma FirstIsLeast(a: seq<string>, y: string)
    requires Sorted(a) && y in multiset(a)
    ensures LessEq(a[0], y)
  {
    var i :| 0 <= i < |a| && a[i] == y;
    if i > 0 { assert LessEq(a[0], a[i]); }
  }

  lemma SortedTail(a: seq<string>)
    requires Sorted(a) && |a| > 0
    ensures Sorted(a[1..])
  {
    forall i, j | 0 <= i < j < |a| - 1
      ensures LessEq(a[1..][i], a[1..][j])
    {
      assert a[1..][i] == a[i + 1] && a[1..][j] == a[j + 1];
    }
  }

  lemma TailMultiset(a: seq<string>)
    requires |a| > 0
    ensures multiset(a[1..]) == multiset(a) - multiset{a[0]}
  {
    assert a == [a[0]] + a[1..];
  }

  /** A multiset has only one sorted arrangement. */
  lemma {:induction false} SortedUnique(a: seq<string>, b: seq<string>)
    requires Sorted(a) && Sorted(b)
    requires multiset(a) == multiset(b)
    ensures a == b
  {
    assert |a| == |multiset(a)| == |multiset(b)| == |b|;
    if |a| > 0 {
      assert a[0] in multiset(b) && b[0] in multiset(a);
      FirstIsLeast(b, a[0]);
      FirstIsLeast(a, b[0]);
      LessEqAntisymmetric(a[0], b[0]);
      TailMultiset(a);
      TailMultiset(b);
      SortedTail(a);
      SortedTail(b);
      SortedUnique(a[1..], b[1..]);
      assert a == [a[0]] + a[1..] && b == [b[0]] + b[1..];
    }
  }

  /** Two lists sort to the same list exactly when they hold the same
      elements with the same multiplicities. */
  lemma SortStringsEqual(a: seq<string>, b: seq<string>)
    ensures SortStrings(a) == SortStrings(b) <==> multiset(a) == multiset(b)
  {
    if multiset(a) == multiset(b) {
      SortedUnique(SortStrings(a), SortStrings(b));
    }
  }

  /** Sorting an already sorted list leaves it as it is. */
  lemma SortSorted(a: seq<string>)
    requires Sorted(a)
    ensures SortStrings(a) == a
  {
    SortedUnique(SortStrings(a), a);
  }
}

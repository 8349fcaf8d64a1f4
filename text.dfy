/**
 * The pieces of Python's string handling that the slide tools rely on:
 * `"%d"` rendering, `str.index`, `str.split(sep)`, slicing past the end,
 * and the code-point ordering that `sorted()` applies to file names.
 */
module Text {
  import opened Wrappers

  // ---------------------------------------------------------------------------
  // Decimal numerals ("%d")

  function Digit(d: nat): (c: char)
    requires d < 10
    ensures '0' <= c <= '9'
  {
    "0123456789"[d]
  }

  predicate IsDigits(s: string) {
    forall k :: 0 <= k < |s| ==> '0' <= s[k] <= '9'
  }

  /** The number a string of decimal digits denotes. */
  function DigitsValue(s: string): nat
    requires IsDigits(s)
  {
    if s == [] then 0
    else DigitsValue(s[..|s| - 1]) * 10 + (s[|s| - 1] as int - '0' as int)
  }

  /** `"%d" % n` for a natural number: non-empty and only digits. */
  function Decimal(n: nat): (s: string)
    ensures |s| >= 1 && IsDigits(s)
  {
    if n < 10 then [Digit(n)] else Decimal(n / 10) + [Digit(n % 10)]
  }

  /** Reading the digits of `n` back gives `n`. */
  lemma {:induction false} DecimalValue(n: nat)
    ensures DigitsValue(Decimal(n)) == n
  {
    if n >= 10 {
      var s := Decimal(n);
      assert s[..|s| - 1] == Decimal(n / 10);
      DecimalValue(n / 10);
    }
  }

  /** `"%d" % i` for any integer: a minus sign before the digits of a negative number. */
  function IntDecimal(i: int): (s: string)
    ensures i >= 0 ==> s == Decimal(i)
    ensures i < 0 ==> s == "-" + Decimal(-i)
  {
    if i < 0 then "-" + Decimal(-i) else Decimal(i)
  }

  /** A rendered integer starts with '-' exactly when it is negative. */
  lemma IntDecimalSign(i: int)
    ensures |IntDecimal(i)| >= 1
    ensures IntDecimal(i)[0] == '-' <==> i < 0
  {
    if i >= 0 {
      assert '0' <= Decimal(i)[0] <= '9';
    }
  }

  /** Different integers render differently. */
  lemma IntDecimalInjective(a: int, b: int)
    requires IntDecimal(a) == IntDecimal(b)
    ensures a == b
  {
    IntDecimalSign(a);
    IntDecimalSign(b);
    var x: nat, y: nat := if a < 0 then -a else a, if b < 0 then -b else b;
    assert Decimal(x) == Decimal(y) by {
      if a < 0 {
        assert Decimal(x) == IntDecimal(a)[1..];
        assert Decimal(y) == IntDecimal(b)[1..];
      }
    }
    DecimalValue(x);
    DecimalValue(y);
  }

  // ---------------------------------------------------------------------------
  // str.index and slicing

  /** `s.index(c)`: the first position of `c`, or None where Python raises ValueError. */
  function IndexOf(s: string, c: char): (r: Option<nat>)
    ensures r.None? <==> c !in s
    ensures r.Some? ==> r.value < |s| && s[r.value] == c && c !in s[..r.value]
  {
    if |s| == 0 then None
    else if s[0] == c then Some(0)
    else
      match IndexOf(s[1..], c)
      case None => None
      case Some(i) =>
        assert s[..i + 1] == [s[0]] + s[1..][..i];
        Some(i + 1)
  }

  /** `str.index` gives the first occurrence: a `c` at `j` with none before it. */
  lemma IndexOfFirst(s: string, c: char, j: nat)
    requires j < |s| && s[j] == c && c !in s[..j]
    ensures IndexOf(s, c) == Some(j)
  {
    assert s[j] == c;
  }

  /** `s[i:]` for a non-negative start: Python yields "" when `i` is past the end. */
  function SliceFrom(s: string, i: nat): (r: string)
    ensures i <= |s| ==> r == s[i..]
    ensures i > |s| ==> r == ""
  {
    if i <= |s| then s[i..] else ""
  }

  // ---------------------------------------------------------------------------
  // str.split(sep) and its inverse sep.join(...)

  /** `sep.join(parts)`. */
  function Join(parts: seq<string>, sep: char): string
    requires |parts| >= 1
  {
    if |parts| == 1 then parts[0] else parts[0] + [sep] + Join(parts[1..], sep)
  }

  /** Joining pieces that hold no `c` with a separator other than `c` gives a string without `c`. */
  lemma {:induction false} JoinAvoids(parts: seq<string>, sep: char, c: char)
    requires |parts| >= 1 && sep != c
    requires forall k :: 0 <= k < |parts| ==> c !in parts[k]
    ensures c !in Join(parts, sep)
    decreases |parts|
  {
    if |parts| > 1 {
      assert forall k :: 0 <= k < |parts[1..]| ==> parts[1..][k] == parts[k + 1];
      JoinAvoids(parts[1..], sep, c);
    }
  }

  /**
   * `s.split(sep)` with an explicit separator: empty pieces are kept, so the
   * result always has one more piece than `s` has separators.
   */
  function Split(s: string, sep: char): (parts: seq<string>)
    ensures |parts| >= 1
    ensures forall k :: 0 <= k < |parts| ==> sep !in parts[k]
    ensures Join(parts, sep) == s
    decreases |s|
  {
    match IndexOf(s, sep)
    case None => [s]
    case Some(i) =>
      var rest := Split(s[i + 1..], sep);
      assert s == s[..i] + [sep] + s[i + 1..];
      [s[..i]] + rest
  }

  lemma {:induction false} SplitJoin(parts: seq<string>, sep: char)
    requires |parts| >= 1
    requires forall k :: 0 <= k < |parts| ==> sep !in parts[k]
    ensures Split(Join(parts, sep), sep) == parts
    decreases |parts|
  {
    if |parts| > 1 {
      var s := Join(parts, sep);
      var tail := Join(parts[1..], sep);
      assert s == parts[0] + [sep] + tail;
      assert s[|parts[0]|] == sep;
      assert s[..|parts[0]|] == parts[0];
      assert IndexOf(s, sep) == Some(|parts[0]|);
      assert s[|parts[0]| + 1..] == tail;
      assert forall k :: 0 <= k < |parts[1..]| ==> parts[1..][k] == parts[k + 1];
      SplitJoin(parts[1..], sep);
      assert Split(s, sep) == [parts[0]] + Split(tail, sep);
      assert [parts[0]] + parts[1..] == parts;
    } else {
      assert IndexOf(parts[0], sep).None?;
    }
  }

  /** Joining one more piece appends a separator and that piece. */
  lemma {:induction false} JoinSnoc(parts: seq<string>, x: string, sep: char)
    requires |parts| >= 1
    ensures Join(parts + [x], sep) == Join(parts, sep) + [sep] + x
    decreases |parts|
  {
    if |parts| > 1 {
      assert (parts + [x])[1..] == parts[1..] + [x];
      JoinSnoc(parts[1..], x, sep);
    } else {
      assert (parts + [x])[1..] == [x];
    }
  }

  // ---------------------------------------------------------------------------
  // The order `sorted()` puts strings in: lexicographic on code points

  predicate Below(a: string, b: string)
    decreases |a|
  {
    a == [] || (b != [] && (a[0] < b[0] || (a[0] == b[0] && Below(a[1..], b[1..]))))
  }

  lemma {:induction false} BelowTotal(a: string, b: string)
    ensures Below(a, b) || Below(b, a)
    decreases |a|
  {
    if a != [] && b != [] && a[0] == b[0] {
      BelowTotal(a[1..], b[1..]);
    }
  }

  lemma {:induction false} BelowReflexive(a: string)
    ensures Below(a, a)
    decreases |a|
  {
    if a != [] { BelowReflexive(a[1..]); }
  }

  lemma {:induction false} BelowTransitive(a: string, b: string, c: string)
    requires Below(a, b) && Below(b, c)
    ensures Below(a, c)
    decreases |a|
  {
    if a != [] && a[0] == b[0] && b[0] == c[0] {
      BelowTransitive(a[1..], b[1..], c[1..]);
    }
  }

  lemma {:induction false} BelowAntisymmetric(a: string, b: string)
    requires Below(a, b) && Below(b, a)
    ensures a == b
    decreases |a|
  {
    if a != [] {
      BelowAntisymmetric(a[1..], b[1..]);
      assert a == [a[0]] + a[1..] && b == [b[0]] + b[1..];
    }
  }

  predicate Sorted(s: seq<string>) {
    forall i, j {:trigger Below(s[i], s[j])} :: 0 <= i < j < |s| ==> Below(s[i], s[j])
  }

  lemma SortedSnoc(a: seq<string>, x: string)
    requires Sorted(a)
    requires forall k :: 0 <= k < |a| ==> Below(a[k], x)
    ensures Sorted(a + [x])
  {
    var r := a + [x];
    forall i, j | 0 <= i < j < |r| ensures Below(r[i], r[j]) {
      if j < |a| {
        assert Below(a[i], a[j]);
      } else {
        assert Below(a[i], x);
      }
    }
  }

  /** Puts `x` before the first element it is below. */
  function Insert(x: string, s: seq<string>): (r: seq<string>)
    ensures |r| == |s| + 1
  {
    if s == [] then [x]
    else if Below(x, s[0]) then [x] + s
    else [s[0]] + Insert(x, s[1..])
  }

  lemma {:induction false} InsertSorted(x: string, s: seq<string>)
    requires Sorted(s)
    ensures Sorted(Insert(x, s))
    ensures multiset(Insert(x, s)) == multiset(s) + multiset{x}
    decreases |s|
  {
    if s == [] {
    } else if Below(x, s[0]) {
      SortedCons(x, s);
      assert s == [s[0]] + s[1..];
    } else {
      assert s == [s[0]] + s[1..];
      assert Sorted(s[1..]) by {
        forall i, j | 0 <= i < j < |s[1..]| ensures Below(s[1..][i], s[1..][j]) {
          assert Below(s[i + 1], s[j + 1]);
        }
      }
      InsertSorted(x, s[1..]);
      BelowTotal(x, s[0]);
      var tail := Insert(x, s[1..]);
      InsertAbove(s[0], x, s[1..]);
      SortedCons(s[0], tail);
    }
  }

  /** An element below `x` and below every element of `s` is below everything of `Insert(x, s)`. */
  lemma InsertAbove(y: string, x: string, s: seq<string>)
    requires Below(y, x)
    requires forall k :: 0 <= k < |s| ==> Below(y, s[k])
    requires multiset(Insert(x, s)) == multiset(s) + multiset{x}
    ensures forall j :: 0 <= j < |Insert(x, s)| ==> Below(y, Insert(x, s)[j])
  {
    var r := Insert(x, s);
    forall j | 0 <= j < |r| ensures Below(y, r[j]) {
      assert r[j] in multiset(r);
      if r[j] != x {
        assert r[j] in multiset(s);
        var m :| 0 <= m < |s| && s[m] == r[j];
      }
    }
  }

  /** Putting an element below the first of a sorted sequence in front keeps it sorted. */
  lemma SortedCons(x: string, s: seq<string>)
    requires Sorted(s)
    requires s != [] ==> Below(x, s[0])
    ensures Sorted([x] + s)
  {
    var r := [x] + s;
    forall i, j | 0 <= i < j < |r| ensures Below(r[i], r[j]) {
      if i == 0 {
        if j > 1 {
          assert Below(s[0], s[j - 1]);
          BelowTransitive(x, s[0], s[j - 1]);
        }
      } else {
        assert Below(s[i - 1], s[j - 1]);
      }
    }
  }

  /** `sorted(names)`, as an insertion sort. */
  function SortNames(names: seq<string>): (r: seq<string>)
    ensures |r| == |names|
  {
    if names == [] then []
    else Insert(names[|names| - 1], SortNames(names[..|names| - 1]))
  }

  /** `sorted(names)` holds the same names, in ascending code-point order. */
  lemma {:induction false} SortNamesSorted(names: seq<string>)
    ensures Sorted(SortNames(names))
    ensures multiset(SortNames(names)) == multiset(names)
    decreases |names|
  {
    if names != [] {
      var init := names[..|names| - 1];
      SortNamesSorted(init);
      InsertSorted(names[|names| - 1], SortNames(init));
      assert names == init + [names[|names| - 1]];
    }
  }
}

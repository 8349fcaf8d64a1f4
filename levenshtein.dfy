/**
 * `levenshtein.py`: the textbook recursive edit distance between two
 * sequences, with a pluggable element comparison `comp` (by default
 * `operator.eq`). As written, only the outermost call uses `comp`: the
 * recursive calls leave it out and so fall back to `operator.eq`.
 * `LevenshteinAsWritten` is that function; `Levenshtein` passes `comp`
 * down, and the properties below are proved about both.
 */
module EditDistance {

  function Max(a: nat, b: nat): nat {
    if a >= b then a else b
  }

  function Min3(a: nat, b: nat, c: nat): (r: nat)
    ensures r <= a && r <= b && r <= c
    ensures r == a || r == b || r == c
  {
    if a <= b && a <= c then a else if b <= c then b else c
  }

  /** How far apart two lengths are. */
  function Gap(m: nat, n: nat): nat {
    if m >= n then m - n else n - m
  }

  /**
   * `levenshtein(fst, snd, comp)`: an empty side costs the length of the
   * other; otherwise the cheapest of dropping `fst[0]`, dropping `snd[0]`,
   * or pairing the two heads (free when `comp` accepts them). The distance
   * is at least the difference of the lengths and at most the longer length.
   */
  function Levenshtein<T>(fst: seq<T>, snd: seq<T>, comp: (T, T) -> bool): (r: nat)
    ensures Gap(|fst|, |snd|) <= r <= Max(|fst|, |snd|)
    decreases |fst| + |snd|
  {
    if |fst| == 0 || |snd| == 0 then Max(|fst|, |snd|)
    else
      var deletion := Levenshtein(fst[1..], snd, comp) + 1;
      var insertion := Levenshtein(fst, snd[1..], comp) + 1;
      var ind := if comp(fst[0], snd[0]) then 0 else 1;
      var substitution := Levenshtein(fst[1..], snd[1..], comp) + ind;
      Min3(deletion, insertion, substitution)
  }

  /**
   * `levenshtein(fst, snd, comp)` as written: `comp` decides only whether
   * the two first elements pair up for free; the three recursive calls
   * compare with `operator.eq`.
   */
  function LevenshteinAsWritten<T(==)>(fst: seq<T>, snd: seq<T>, comp: (T, T) -> bool): (r: nat)
    ensures Gap(|fst|, |snd|) <= r <= Max(|fst|, |snd|)
  {
    if |fst| == 0 || |snd| == 0 then Max(|fst|, |snd|)
    else
      var deletion := Levenshtein(fst[1..], snd, Eq) + 1;
      var insertion := Levenshtein(fst, snd[1..], Eq) + 1;
      var ind := if comp(fst[0], snd[0]) then 0 else 1;
      var substitution := Levenshtein(fst[1..], snd[1..], Eq) + ind;
      Min3(deletion, insertion, substitution)
  }

  /** With the default `operator.eq` the two definitions agree. */
  lemma AsWrittenWithEq<T>(a: seq<T>, b: seq<T>)
    ensures LevenshteinAsWritten(a, b, Eq) == Levenshtein(a, b, Eq)
  {
  }

  /** The function as written is still 0 on equal inputs and symmetric. */
  lemma {:induction false} AsWrittenSelfAndSymmetric<T>(a: seq<T>, b: seq<T>, comp: (T, T) -> bool)
    ensures (forall x :: comp(x, x)) ==> LevenshteinAsWritten(a, a, comp) == 0
    ensures (forall x, y :: comp(x, y) == comp(y, x)) ==>
      LevenshteinAsWritten(a, b, comp) == LevenshteinAsWritten(b, a, comp)
  {
    if |a| > 0 {
      SelfDistanceZero(a[1..], Eq);
    }
    if |a| > 0 && |b| > 0 {
      Symmetric(a[1..], b, Eq);
      Symmetric(a, b[1..], Eq);
      Symmetric(a[1..], b[1..], Eq);
    }
  }

  /** A comparison that accepts every pair. */
  function AnyPair(x: int, y: int): bool {
    true
  }

  /**
   * With a comparison that accepts every pair, two sequences of equal
   * length should be at distance 0; as written, `[0, 1]` and `[2, 3]` are
   * at distance 1 because the second pair is compared with `operator.eq`.
   */
  lemma AsWrittenDropsComp()
    ensures LevenshteinAsWritten([0, 1], [2, 3], AnyPair) == 1
    ensures Levenshtein([0, 1], [2, 3], AnyPair) == 0
  {
    var a: seq<int>, b: seq<int> := [0, 1], [2, 3];
    assert a[1..] == [1] && b[1..] == [3];
    assert [1][1..] == [] && [3][1..] == [];
    assert Levenshtein([1], [3], Eq) == 1;
    assert Levenshtein([1], [3], AnyPair) == 0;
  }

  /** Against an empty sequence the distance is the length of the other one. */
  lemma EmptySide<T>(s: seq<T>, comp: (T, T) -> bool)
    ensures Levenshtein(s, [], comp) == |s|
    ensures Levenshtein([], s, comp) == |s|
  {
  }

  /** With a reflexive comparison, a sequence is at distance 0 from itself. */
  lemma {:induction false} SelfDistanceZero<T>(s: seq<T>, comp: (T, T) -> bool)
    requires forall x :: comp(x, x)
    ensures Levenshtein(s, s, comp) == 0
    decreases |s|
  {
    if |s| > 0 {
      SelfDistanceZero(s[1..], comp);
    }
  }

  /** With a symmetric comparison the distance is symmetric. */
  lemma {:induction false} Symmetric<T>(a: seq<T>, b: seq<T>, comp: (T, T) -> bool)
    requires forall x, y :: comp(x, y) == comp(y, x)
    ensures Levenshtein(a, b, comp) == Levenshtein(b, a, comp)
    decreases |a| + |b|
  {
    if |a| > 0 && |b| > 0 {
      Symmetric(a[1..], b, comp);
      Symmetric(a, b[1..], comp);
      Symmetric(a[1..], b[1..], comp);
    }
  }

  /** `operator.eq`. */
  function Eq<T(==)>(x: T, y: T): bool {
    x == y
  }

  /** With `operator.eq`, the distance is 0 exactly for equal sequences. */
  lemma {:induction false} ZeroIffEqual<T>(a: seq<T>, b: seq<T>)
    ensures Levenshtein(a, b, Eq) == 0 <==> a == b
    decreases |a| + |b|
  {
    if a == b {
      SelfDistanceZero(a, Eq);
    } else if |a| > 0 && |b| > 0 {
      ZeroIffEqual(a[1..], b[1..]);
    }
  }

  /** One duplicated element is one edit: `[0, 1, 2]` against `[0, 1, 1, 2]`. */
  lemma OneInsertion()
    ensures Levenshtein([0, 1, 2], [0, 1, 1, 2], Eq) == 1
  {
    var a: seq<int>, b: seq<int> := [0, 1, 2], [0, 1, 1, 2];
    assert a[1..] == [1, 2] && b[1..] == [1, 1, 2];
    assert [1, 2][1..] == [2] && [1, 1, 2][1..] == [1, 2];
    assert [2][1..] == [];
    assert Levenshtein([2], [2], Eq) == 0 by {
      SelfDistanceZero([2], Eq);
    }
    assert Levenshtein([2], [1, 2], Eq) <= 1;
    assert Levenshtein([1, 2], [1, 1, 2], Eq) <= 1;
  }
}

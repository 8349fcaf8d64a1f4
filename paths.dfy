/**
 * POSIX `os.path.splitext` and `os.path.join`, and the loader pattern both
 * slide loaders share: walk `sorted(listing)`, keep the names whose joined
 * path has an accepted extension.
 */
module Paths {
  import Text

  /** `s.rfind(c)`: the last position of `c`, or -1. */
  function RFind(s: string, c: char): (r: int)
    ensures -1 <= r < |s|
  {
    if |s| == 0 then -1
    else if s[|s| - 1] == c then |s| - 1
    else RFind(s[..|s| - 1], c)
  }

  /** `rfind` finds an occurrence, and none after it. */
  lemma {:induction false} RFindSpec(s: string, c: char)
    ensures RFind(s, c) >= 0 ==> s[RFind(s, c)] == c
    ensures forall k :: RFind(s, c) < k < |s| ==> s[k] != c
    decreases |s|
  {
    if |s| > 0 && s[|s| - 1] != c {
      RFindSpec(s[..|s| - 1], c);
    }
  }

  lemma {:induction false} RFindAppend(a: string, b: string, c: char)
    ensures RFind(a + b, c) == if RFind(b, c) >= 0 then |a| + RFind(b, c) else RFind(a, c)
    decreases |b|
  {
    if |b| > 0 {
      assert (a + b)[..|a + b| - 1] == a + b[..|b| - 1];
      RFindAppend(a, b[..|b| - 1], c);
    } else {
      assert a + b == a;
    }
  }

  predicate AllDots(s: string) {
    forall k :: 0 <= k < |s| ==> s[k] == '.'
  }

  /**
   * `os.path.splitext(p)`: the extension runs from the last '.' of the last
   * path component to the end, unless everything before that '.' in the
   * component is dots (".bashrc" has no extension).
   */
  function SplitExt(p: string): (r: (string, string))
    ensures r.0 + r.1 == p
  {
    var sep := RFind(p, '/');
    var dot := RFind(p, '.');
    if dot > sep && !AllDots(p[sep + 1..dot]) then
      (p[..dot], p[dot..])
    else (p, "")
  }

  /**
   * Splitting loses nothing, and a non-empty extension is one '.' followed
   * by neither '.' nor '/'.
   */
  lemma SplitExtSpec(p: string)
    ensures SplitExt(p).0 + SplitExt(p).1 == p
    ensures SplitExt(p).1 != "" ==> SplitExt(p).1[0] == '.'
    ensures forall k :: 0 < k < |SplitExt(p).1| ==> SplitExt(p).1[k] != '.'
    ensures forall k :: 0 <= k < |SplitExt(p).1| ==> SplitExt(p).1[k] != '/'
  {
    RFindSpec(p, '/');
    RFindSpec(p, '.');
    var ext := SplitExt(p).1;
    if ext != "" {
      var dot := RFind(p, '.');
      assert forall k :: 0 <= k < |ext| ==> ext[k] == p[dot + k];
    }
  }

  /** `rfind` of a character the string does not hold is -1. */
  lemma {:induction false} RFindAbsent(s: string, c: char)
    requires forall k :: 0 <= k < |s| ==> s[k] != c
    ensures RFind(s, c) == -1
    decreases |s|
  {
    if |s| > 0 {
      RFindAbsent(s[..|s| - 1], c);
    }
  }

  /** An extension-shaped string has its only '.' at the front. */
  lemma ExtDot(ext: string)
    requires ext != [] && ext[0] == '.'
    requires forall k :: 0 < k < |ext| ==> ext[k] != '.'
    ensures RFind(ext, '.') == 0
  {
    RFindSpec(ext, '.');
  }

  /**
   * A plain file name `stem + ext` splits into exactly its stem and its
   * extension when the stem has no '/' and is not all dots; the stem may
   * hold further dots (as in "0:00:01.500.jpg"), except when there is no
   * extension, where any '.' in the stem would start one.
   */
  lemma {:induction false} SplitExtOfName(stem: string, ext: string)
    requires forall k :: 0 <= k < |stem| ==> stem[k] != '/'
    requires exists k :: 0 <= k < |stem| && stem[k] != '.'
    requires ext == [] ==> forall k :: 0 <= k < |stem| ==> stem[k] != '.'
    requires ext == [] || ext[0] == '.'
    requires forall k :: 0 < k < |ext| ==> ext[k] != '.'
    requires forall k :: 0 <= k < |ext| ==> ext[k] != '/'
    ensures SplitExt(stem + ext) == (stem, ext)
  {
    var p := stem + ext;
    RFindAbsent(stem, '/');
    RFindAbsent(ext, '/');
    RFindAppend(stem, ext, '/');
    assert RFind(p, '/') == -1;
    if ext == [] {
      assert p == stem;
      RFindAbsent(p, '.');
    } else {
      ExtDot(ext);
      RFindAppend(stem, ext, '.');
      assert RFind(p, '.') == |stem|;
      assert p[0..|stem|] == stem;
      var w :| 0 <= w < |stem| && stem[w] != '.';
      assert !AllDots(stem);
      assert p[..|stem|] == stem && p[|stem|..] == ext;
    }
  }

  function Ext(p: string): string {
    SplitExt(p).1
  }

  /** `os.path.join(dir, name)` for two components. */
  function PathJoin(dir: string, name: string): string {
    if |name| > 0 && name[0] == '/' then name
    else if dir == "" || dir[|dir| - 1] == '/' then dir + name
    else dir + "/" + name
  }

  /**
   * The joined path ends with `name`; a relative name is put after a '/',
   * unless there is no directory; an absolute name replaces the directory.
   */
  lemma PathJoinSpec(dir: string, name: string)
    ensures |PathJoin(dir, name)| >= |name|
    ensures PathJoin(dir, name)[|PathJoin(dir, name)| - |name|..] == name
    ensures (|name| == 0 || name[0] != '/') && dir != "" ==>
      |PathJoin(dir, name)| > |name| && PathJoin(dir, name)[|PathJoin(dir, name)| - |name| - 1] == '/'
    ensures |name| > 0 && name[0] == '/' ==> PathJoin(dir, name) == name
  {
    var r := PathJoin(dir, name);
    if !(|name| > 0 && name[0] == '/') && dir != "" {
      if dir[|dir| - 1] == '/' {
        assert r == dir + name;
      } else {
        assert r == (dir + "/") + name;
      }
    }
  }

  /** Behind a directory prefix ending in '/', a name keeps its extension. */
  lemma {:induction false} ExtAfterDirectory(pre: string, name: string)
    requires pre != [] && pre[|pre| - 1] == '/'
    requires forall k :: 0 <= k < |name| ==> name[k] != '/'
    ensures Ext(pre + name) == Ext(name)
  {
    var p := pre + name;
    RFindAppend(pre, name, '/');
    RFindAppend(pre, name, '.');
    RFindSpec(name, '/');
    RFindSpec(pre, '.');
    assert RFind(name, '/') == -1;
    assert RFind(pre, '/') == |pre| - 1;
    var d := RFind(name, '.');
    if d >= 0 {
      ExtAfterDirectoryDot(pre, name, d);
    } else {
      assert RFind(pre, '.') != |pre| - 1;
      assert RFind(p, '.') < RFind(p, '/');
    }
  }

  lemma {:induction false} ExtAfterDirectoryDot(pre: string, name: string, d: nat)
    requires pre != [] && pre[|pre| - 1] == '/'
    requires RFind(name, '/') == -1 && RFind(name, '.') == d
    requires RFind(pre + name, '/') == |pre| - 1 && RFind(pre + name, '.') == |pre| + d
    ensures Ext(pre + name) == Ext(name)
  {
    var p := pre + name;
    assert p[|pre|..] == name;
    assert p[|pre|..|pre| + d] == name[..d];
    if !AllDots(name[..d]) {
      assert p[|pre| + d..] == name[d..];
    }
  }

  /** A directory entry (no '/') has the same extension as the joined path to it. */
  lemma JoinKeepsExt(dir: string, name: string)
    requires forall k :: 0 <= k < |name| ==> name[k] != '/'
    ensures Ext(PathJoin(dir, name)) == Ext(name)
  {
    if dir == "" {
      assert PathJoin(dir, name) == name;
    } else if dir[|dir| - 1] == '/' {
      ExtAfterDirectory(dir, name);
    } else {
      assert PathJoin(dir, name) == (dir + "/") + name;
      ExtAfterDirectory(dir + "/", name);
    }
  }

  /** The names of `names` whose flag in `keep` is set, in their order. */
  function Select(names: seq<string>, keep: seq<bool>): (r: seq<string>)
    requires |keep| == |names|
    ensures |r| <= |names|
  {
    if names == [] then []
    else
      var n := |names| - 1;
      Select(names[..n], keep[..n]) + (if keep[n] then [names[n]] else [])
  }



  lemma {:induction false} SelectMembers(names: seq<string>, keep: seq<bool>)
    requires |keep| == |names|
    ensures forall x :: x in Select(names, keep) <==> exists j :: 0 <= j < |names| && names[j] == x && keep[j]
    decreases |names|
  {
    if names != [] {
      var n := |names| - 1;
      SelectMembers(names[..n], keep[..n]);
      forall x ensures x in Select(names, keep) <==> exists j :: 0 <= j < |names| && names[j] == x && keep[j] {
        if x in Select(names[..n], keep[..n]) {
          var j :| 0 <= j < n && names[..n][j] == x && keep[..n][j];
          assert names[j] == x && keep[j];
        }
        if exists j :: 0 <= j < |names| && names[j] == x && keep[j] {
          var j :| 0 <= j < |names| && names[j] == x && keep[j];
          if j < n {
            assert names[..n][j] == x && keep[..n][j];
          }
        }
      }
    }
  }

  lemma {:induction false} SelectSorted(names: seq<string>, keep: seq<bool>)
    requires |keep| == |names| && Text.Sorted(names)
    ensures Text.Sorted(Select(names, keep))
    decreases |names|
  {
    if names != [] {
      var n := |names| - 1;
      var init := names[..n];
      assert Text.Sorted(init) by {
        forall i, j | 0 <= i < j < |init| ensures Text.Below(init[i], init[j]) {
          assert Text.Below(names[i], names[j]);
        }
      }
      SelectSorted(init, keep[..n]);
      SelectMembers(init, keep[..n]);
      var a := Select(init, keep[..n]);
      if keep[n] {
        forall k | 0 <= k < |a| ensures Text.Below(a[k], names[n]) {
          assert a[k] in a;
          var m :| 0 <= m < n && init[m] == a[k] && keep[..n][m];
          assert Text.Below(names[m], names[n]);
        }
        Text.SortedSnoc(a, names[n]);
      }
    }
  }

  /** For each name, whether its joined path has an extension in `exts`. */
  function Verdicts(names: seq<string>, dir: string, exts: set<string>): (keep: seq<bool>)
    ensures |keep| == |names|
  {
    seq(|names|, j requires 0 <= j < |names| => Ext(PathJoin(dir, names[j])) in exts)
  }



  /** The names of `names` whose joined path has an extension in `exts`, in their order. */
  function Accepted(names: seq<string>, dir: string, exts: set<string>): (r: seq<string>)
    ensures |r| <= |names|
  {
    Select(names, Verdicts(names, dir, exts))
  }

  /** Walking one more name extends the accepted names by that name or by nothing. */
  lemma AcceptedStep(names: seq<string>, i: nat, dir: string, exts: set<string>)
    requires i < |names|
    ensures Accepted(names[..i + 1], dir, exts)
      == Accepted(names[..i], dir, exts) + (if Ext(PathJoin(dir, names[i])) in exts then [names[i]] else [])
  {
    var keep := Verdicts(names[..i + 1], dir, exts);
    assert names[..i + 1][..i] == names[..i];
    assert keep[..i] == Verdicts(names[..i], dir, exts);
  }

  lemma AcceptedMembers(names: seq<string>, dir: string, exts: set<string>)
    ensures forall x :: x in Accepted(names, dir, exts) <==> x in names && Ext(PathJoin(dir, x)) in exts
  {
    var keep := Verdicts(names, dir, exts);
    SelectMembers(names, keep);
    forall x ensures x in Accepted(names, dir, exts) <==> x in names && Ext(PathJoin(dir, x)) in exts {
      if x in names && Ext(PathJoin(dir, x)) in exts {
        var j :| 0 <= j < |names| && names[j] == x;
        assert keep[j];
      }
    }
  }

  /**
   * The names of `sorted(listing)` whose joined path has an extension in `exts`, in that
   * order: what `sort` and `get_slides` iterate over.
   */
  function LoadOrder(listing: seq<string>, dir: string, exts: set<string>): (r: seq<string>)
    ensures |r| <= |listing|
  {
    Accepted(Text.SortNames(listing), dir, exts)
  }

  /** The load order is sorted and holds exactly the accepted entries of the listing. */
  lemma LoadOrderSpec(listing: seq<string>, dir: string, exts: set<string>)
    ensures Text.Sorted(LoadOrder(listing, dir, exts))
    ensures forall x :: x in LoadOrder(listing, dir, exts) <==> x in listing && Ext(PathJoin(dir, x)) in exts
  {
    var sorted := Text.SortNames(listing);
    Text.SortNamesSorted(listing);
    SelectSorted(sorted, Verdicts(sorted, dir, exts));
    AcceptedMembers(sorted, dir, exts);
    forall x ensures x in sorted <==> x in listing {
      assert x in sorted <==> x in multiset(sorted);
      assert x in listing <==> x in multiset(listing);
    }
  }

  /** No element occurs twice: both loaders make a separate object per file. */
  predicate Distinct<T(==)>(s: seq<T>) {
    forall a, b :: 0 <= a < b < |s| ==> s[a] != s[b]
  }

  /** Appending an element not yet present keeps a sequence free of repeats. */
  lemma DistinctSnoc<T>(s: seq<T>, x: T)
    requires Distinct(s) && x !in s
    ensures Distinct(s + [x])
  {
    var r := s + [x];
    forall a, b | 0 <= a < b < |r| ensures r[a] != r[b] {
      if b < |s| {
        assert r[a] == s[a] && r[b] == s[b];
      } else {
        assert r[a] == s[a] && r[b] == x;
      }
    }
  }
}

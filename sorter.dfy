/**
 * `sorter.py`: loads the image files of a directory listing as slides and
 * marks duplicates with one quadratic pass. `same` stands for the image
 * comparator's `are_same`.
 *
 * The marking state is followed on plain values: `Marks` is the sequence of
 * `marked` flags after the first `i` outer passes, `Scanned` the flags after
 * the inner loop of pass `i` has looked at positions `i .. j-1`.
 */
module Sorting {
  import opened Wrappers
  import Paths
  import Text
  import SlideData

  /** A slide of the sorter: the file name it was loaded from, its image and its mark. */
  class Slide<F> {
    const name: string
    const img: F
    var marked: bool

    constructor (name: string, img: F)
      ensures this.name == name && this.img == img && !marked
    {
      this.name := name;
      this.img := img;
      marked := false;
    }
  }

  /** `file_supported`: one of `.jpeg`, `.png`, `.jpg`, `.bmp`, compared case-sensitively. */
  predicate FileSupported(ext: string)
    ensures FileSupported(ext) <==> ext in SlideData.ImageExtensions
  {
    ext == ".jpeg" || ext == ".png" || ext == ".jpg" || ext == ".bmp"
  }

  /** The sorter and the slide loader accept the same files. */
  lemma FileSupportedIsImage(ext: string)
    ensures FileSupported(ext) <==> SlideData.IsImage(ext)
  {
  }

  // ---------------------------------------------------------------------------
  // The marking rule, on values

  /** Pass `i` met slide `j` as a match: `j` is marked, and so is `i` if `j` already was. */
  function Hit(marks: seq<bool>, i: nat, j: nat): (r: seq<bool>)
    requires i < |marks| && j < |marks|
    ensures |r| == |marks|
  {
    (if marks[j] then marks[i := true] else marks)[j := true]
  }

  /** One step of the inner loop of pass `i`, at position `j`. */
  function Visit<F>(imgs: seq<F>, same: (F, F) -> bool, i: nat, j: nat, marks: seq<bool>): (r: seq<bool>)
    requires i < |imgs| && j < |imgs| && |marks| == |imgs|
    ensures |r| == |marks|
  {
    if j == i then marks
    else if same(imgs[i], imgs[j]) then Hit(marks, i, j)
    else marks
  }

  /** The flags after the inner loop of pass `i` has visited positions `i .. j-1`. */
  function Scanned<F>(imgs: seq<F>, same: (F, F) -> bool, i: nat, j: nat, marks: seq<bool>): (r: seq<bool>)
    requires i <= j <= |imgs| && i < |imgs| && |marks| == |imgs|
    ensures |r| == |marks|
    decreases j - i
  {
    if j == i then marks
    else Visit(imgs, same, i, j - 1, Scanned(imgs, same, i, j - 1, marks))
  }

  /** One outer pass: a slide already marked is skipped, otherwise it is compared with every later one. */
  function Pass<F>(imgs: seq<F>, same: (F, F) -> bool, i: nat, marks: seq<bool>): (r: seq<bool>)
    requires i < |imgs| && |marks| == |imgs|
    ensures |r| == |marks|
  {
    if marks[i] then marks else Scanned(imgs, same, i, |imgs|, marks)
  }

  /** The flags after the outer passes `0 .. i-1`, starting from `start`. */
  function Marks<F>(imgs: seq<F>, same: (F, F) -> bool, start: seq<bool>, i: nat): (r: seq<bool>)
    requires i <= |imgs| && |start| == |imgs|
    ensures |r| == |start|
  {
    if i == 0 then start
    else Pass(imgs, same, i - 1, Marks(imgs, same, start, i - 1))
  }

  function AllClear(n: nat): (r: seq<bool>)
    ensures |r| == n && forall k :: 0 <= k < n ==> !r[k]
  {
    seq(n, _ => false)
  }

  /** The flags `sort` leaves on slides with images `imgs`, all loaded unmarked. */
  function Duplicates<F>(imgs: seq<F>, same: (F, F) -> bool): (r: seq<bool>)
    ensures |r| == |imgs|
  {
    Marks(imgs, same, AllClear(|imgs|), |imgs|)
  }

  // ---------------------------------------------------------------------------
  // Properties of the marking rule

  /** A mark is never taken back: the inner loop only sets flags. */
  lemma {:induction false} ScannedKeeps<F>(imgs: seq<F>, same: (F, F) -> bool, i: nat, j: nat, marks: seq<bool>)
    requires i <= j <= |imgs| && i < |imgs| && |marks| == |imgs|
    ensures forall k :: 0 <= k < |marks| && marks[k] ==> Scanned(imgs, same, i, j, marks)[k]
    decreases j - i
  {
    if j > i {
      ScannedKeeps(imgs, same, i, j - 1, marks);
    }
  }

  /** Pass `i` touches only position `i` and positions after it. */
  lemma {:induction false} ScannedBelow<F>(imgs: seq<F>, same: (F, F) -> bool, i: nat, j: nat, marks: seq<bool>)
    requires i <= j <= |imgs| && i < |imgs| && |marks| == |imgs|
    ensures forall k :: 0 <= k < i ==> Scanned(imgs, same, i, j, marks)[k] == marks[k]
    decreases j - i
  {
    if j > i {
      ScannedBelow(imgs, same, i, j - 1, marks);
    }
  }

  /** Positions the inner loop has not reached yet still hold their flag from the start of the pass. */
  lemma {:induction false} ScannedAhead<F>(imgs: seq<F>, same: (F, F) -> bool, i: nat, j: nat, marks: seq<bool>)
    requires i <= j <= |imgs| && i < |imgs| && |marks| == |imgs|
    ensures forall k :: j <= k < |marks| && k != i ==> Scanned(imgs, same, i, j, marks)[k] == marks[k]
    decreases j - i
  {
    if j > i {
      ScannedAhead(imgs, same, i, j - 1, marks);
    }
  }

  /**
   * During its own pass, slide `i` becomes marked exactly when it was marked
   * already or it matches a later slide that was marked when the pass began.
   */
  lemma {:induction false} ScannedOwnMark<F>(imgs: seq<F>, same: (F, F) -> bool, i: nat, j: nat, marks: seq<bool>)
    requires i <= j <= |imgs| && i < |imgs| && |marks| == |imgs|
    ensures Scanned(imgs, same, i, j, marks)[i]
      <==> marks[i] || exists k :: i < k < j && same(imgs[i], imgs[k]) && marks[k]
    decreases j - i
  {
    if j > i {
      ScannedOwnMark(imgs, same, i, j - 1, marks);
      ScannedAhead(imgs, same, i, j - 1, marks);
    }
  }

  /** After its own pass, every later slide matching slide `i` is marked. */
  lemma {:induction false} ScannedMarksMatches<F>(imgs: seq<F>, same: (F, F) -> bool, i: nat, j: nat, marks: seq<bool>)
    requires i <= j <= |imgs| && i < |imgs| && |marks| == |imgs|
    ensures forall k :: i < k < j && same(imgs[i], imgs[k]) ==> Scanned(imgs, same, i, j, marks)[k]
    decreases j - i
  {
    if j > i {
      ScannedMarksMatches(imgs, same, i, j - 1, marks);
    }
  }

  /** Later passes only add marks. */
  lemma {:induction false} MarksRise<F>(imgs: seq<F>, same: (F, F) -> bool, start: seq<bool>, i: nat, i2: nat)
    requires i <= i2 <= |imgs| && |start| == |imgs|
    ensures forall k :: 0 <= k < |imgs| && Marks(imgs, same, start, i)[k] ==> Marks(imgs, same, start, i2)[k]
    decreases i2 - i
  {
    if i < i2 {
      MarksRise(imgs, same, start, i, i2 - 1);
      var m := Marks(imgs, same, start, i2 - 1);
      if !m[i2 - 1] {
        ScannedKeeps(imgs, same, i2 - 1, |imgs|, m);
      }
    }
  }

  /**
   * A slide not yet marked when the outer loop reaches it marks every later
   * matching slide, and those marks stay to the end.
   */
  lemma MatchesEndMarked<F>(imgs: seq<F>, same: (F, F) -> bool, start: seq<bool>, i: nat, j: nat)
    requires i < j < |imgs| && |start| == |imgs|
    requires !Marks(imgs, same, start, i)[i] && same(imgs[i], imgs[j])
    ensures Marks(imgs, same, start, |imgs|)[j]
  {
    ScannedMarksMatches(imgs, same, i, |imgs|, Marks(imgs, same, start, i));
    MarksRise(imgs, same, start, i + 1, |imgs|);
  }

  /**
   * Slide `i` leaves its own pass marked exactly when it was marked before or
   * it matches a later slide already marked when the pass began.
   */
  lemma OwnPassMark<F>(imgs: seq<F>, same: (F, F) -> bool, start: seq<bool>, i: nat)
    requires i < |imgs| && |start| == |imgs|
    ensures Marks(imgs, same, start, i + 1)[i] <==>
      Marks(imgs, same, start, i)[i] ||
      exists k :: i < k < |imgs| && same(imgs[i], imgs[k]) && Marks(imgs, same, start, i)[k]
  {
    ScannedOwnMark(imgs, same, i, |imgs|, Marks(imgs, same, start, i));
  }

  /** Passes after the first never touch the first slide. */
  lemma {:induction false} FirstUntouched<F>(imgs: seq<F>, same: (F, F) -> bool, start: seq<bool>, i: nat)
    requires 1 <= i <= |imgs| && |start| == |imgs|
    ensures Marks(imgs, same, start, i)[0] == Marks(imgs, same, start, 1)[0]
    decreases i
  {
    if i > 1 {
      FirstUntouched(imgs, same, start, i - 1);
      var m := Marks(imgs, same, start, i - 1);
      if !m[i - 1] {
        ScannedBelow(imgs, same, i - 1, |imgs|, m);
      }
    }
  }

  /** The first slide is never marked; in particular a single slide stays unmarked. */
  lemma FirstNeverMarked<F>(imgs: seq<F>, same: (F, F) -> bool)
    requires |imgs| > 0
    ensures !Duplicates(imgs, same)[0]
    ensures |imgs| == 1 ==> Duplicates(imgs, same) == [false]
  {
    var start := AllClear(|imgs|);
    OwnPassMark(imgs, same, start, 0);
    FirstUntouched(imgs, same, start, |imgs|);
  }

  /** Four slides A, B, A, C with exact comparison: only the second A is marked. */
  lemma RepeatedSlideMarked()
    ensures Duplicates([1, 2, 1, 3], (a: int, b: int) => a == b) == [false, false, true, false]
  {
    var imgs := [1, 2, 1, 3];
    var same := (a: int, b: int) => a == b;
    var m1 := Marks(imgs, same, AllClear(4), 1);
    assert Marks(imgs, same, AllClear(4), 0) == [false, false, false, false];
    assert Scanned(imgs, same, 0, 1, [false, false, false, false]) == [false, false, false, false];
    assert Scanned(imgs, same, 0, 2, [false, false, false, false]) == [false, false, false, false];
    assert Scanned(imgs, same, 0, 3, [false, false, false, false]) == [false, false, true, false];
    assert m1 == [false, false, true, false];
    var m2 := Marks(imgs, same, AllClear(4), 2);
    assert Scanned(imgs, same, 1, 2, m1) == m1;
    assert Scanned(imgs, same, 1, 3, m1) == m1;
    assert m2 == m1;
    assert Marks(imgs, same, AllClear(4), 3) == m1;
    assert Scanned(imgs, same, 3, 4, m1) == m1;
  }

  /**
   * The asymmetric rule: with a comparison that is not transitive, slide 1
   * (image 2) is marked because it matches slide 2 (image 1), which slide 0
   * (image 0) had marked already.
   */
  lemma MatchOfMarkedSlideMarked()
    ensures Duplicates([0, 2, 1], (a: int, b: int) => -1 <= a - b <= 1) == [false, true, true]
  {
    var imgs := [0, 2, 1];
    var same := (a: int, b: int) => -1 <= a - b <= 1;
    assert Scanned(imgs, same, 0, 1, [false, false, false]) == [false, false, false];
    assert Scanned(imgs, same, 0, 2, [false, false, false]) == [false, false, false];
    assert Scanned(imgs, same, 0, 3, [false, false, false]) == [false, false, true];
    var m1 := Marks(imgs, same, AllClear(3), 1);
    assert m1 == [false, false, true];
    assert Scanned(imgs, same, 1, 2, m1) == m1;
    assert Scanned(imgs, same, 1, 3, m1) == [false, true, true];
    var m2 := Marks(imgs, same, AllClear(3), 2);
    assert m2 == [false, true, true];
    assert Marks(imgs, same, AllClear(3), 3) == m2;
  }

  // ---------------------------------------------------------------------------
  // The loops of `sort`

  /** The images of the slides, in order. */
  function Imgs<F>(slides: seq<Slide<F>>): (r: seq<F>)
    ensures |r| == |slides| && forall k :: 0 <= k < |slides| ==> r[k] == slides[k].img
  {
    seq(|slides|, k requires 0 <= k < |slides| => slides[k].img)
  }

  /** The `marked` flags of the slides, in order. */
  function Flags<F>(slides: seq<Slide<F>>): (r: seq<bool>)
    reads set k | 0 <= k < |slides| :: slides[k]
    ensures |r| == |slides| && forall k :: 0 <= k < |slides| ==> r[k] == slides[k].marked
  {
    seq(|slides|, k requires 0 <= k < |slides| reads slides => slides[k].marked)
  }

  /**
   * The body of the inner loop of `sort`: slide `i` against slide `j`. The
   * identity test skips the slide itself; a match marks `j`, and `i` as well
   * when `j` was marked already.
   */
  method Compare<F>(slides: seq<Slide<F>>, same: (F, F) -> bool, i: nat, j: nat)
    requires i < |slides| && j < |slides|
    requires forall a, b :: 0 <= a < b < |slides| ==> slides[a] != slides[b]
    modifies slides[i], slides[j]
    ensures Flags(slides) == Visit(Imgs(slides), same, i, j, old(Flags(slides)))
  {
    ghost var flags := Flags(slides);
    var slide := slides[i];
    var other := slides[j];
    if slide != other {
      if same(slide.img, other.img) {
        if other.marked {
          slide.marked := true;
        }
        other.marked := true;
        forall k | 0 <= k < |slides| ensures Flags(slides)[k] == Hit(flags, i, j)[k] {
          if k != i && k != j {
            assert slides[k] != slide && slides[k] != other;
          }
        }
      }
    }
  }

  /**
   * The marking loops of `sort` (the comparison with itself is an identity
   * test on slide objects, so the slides must be distinct objects, as the
   * loader makes them).
   */
  method MarkDuplicates<F>(slides: seq<Slide<F>>, same: (F, F) -> bool)
    requires forall a, b :: 0 <= a < b < |slides| ==> slides[a] != slides[b]
    modifies set k | 0 <= k < |slides| :: slides[k]
    ensures Flags(slides) == Marks(Imgs(slides), same, old(Flags(slides)), |slides|)
  {
    ghost var imgs := Imgs(slides);
    ghost var start := Flags(slides);
    var i := 0;
    while i < |slides|
      invariant 0 <= i <= |slides|
      invariant Flags(slides) == Marks(imgs, same, start, i)
    {
      ghost var marks := Flags(slides);
      var slide := slides[i];
      assert marks[i] == slide.marked;
      if !slide.marked {
        var j := i;
        while j < |slides|
          invariant i <= j <= |slides|
          invariant Flags(slides) == Scanned(imgs, same, i, j, marks)
        {
          Compare(slides, same, i, j);
          j := j + 1;
        }
      }
      assert Flags(slides) == Pass(imgs, same, i, marks);
      i := i + 1;
    }
  }

  /** `slide` is a new, unmarked slide loaded from the file `name` of directory `path`. */
  ghost predicate LoadedFrom<F>(slide: Slide<F>, path: string, name: string, read: string -> F)
    reads slide
  {
    slide.name == name && slide.img == read(Paths.PathJoin(path, name)) && !slide.marked
  }

  /**
   * The body of the loading loop of `sort` for `names[i]`: the slide loaded
   * from it when its joined path has a supported extension, None otherwise.
   */
  method LoadIfImage<F>(path: string, names: seq<string>, i: nat, read: string -> F) returns (slide: Option<Slide<F>>)
    requires i < |names|
    ensures Paths.Accepted(names[..i + 1], path, SlideData.ImageExtensions)
      == Paths.Accepted(names[..i], path, SlideData.ImageExtensions) + (if slide.Some? then [names[i]] else [])
    ensures slide.Some? ==> fresh(slide.value) && LoadedFrom(slide.value, path, names[i], read)
  {
    Paths.AcceptedStep(names, i, path, SlideData.ImageExtensions);
    var filePath := Paths.PathJoin(path, names[i]);
    var ext := Paths.Ext(filePath);
    if FileSupported(ext) {
      var loaded := new Slide(names[i], read(filePath));
      slide := Some(loaded);
    } else {
      slide := None;
    }
  }

  /** The loading loop of `sort` over the sorted listing `names`; `read` stands for `cv2.imread`. */
  method LoadSlides<F>(path: string, names: seq<string>, read: string -> F) returns (slides: seq<Slide<F>>)
    ensures |slides| == |Paths.Accepted(names, path, SlideData.ImageExtensions)|
    ensures forall a, b :: 0 <= a < b < |slides| ==> slides[a] != slides[b]
    ensures forall k :: 0 <= k < |slides| ==> fresh(slides[k])
    ensures forall k :: 0 <= k < |slides| ==>
      LoadedFrom(slides[k], path, Paths.Accepted(names, path, SlideData.ImageExtensions)[k], read)
  {
    slides := [];
    ghost var loaded: seq<string> := [];
    var i := 0;
    while i < |names|
      invariant 0 <= i <= |names|
      invariant loaded == Paths.Accepted(names[..i], path, SlideData.ImageExtensions)
      invariant |slides| == |loaded|
      invariant Paths.Distinct(slides)
      invariant forall k :: 0 <= k < |slides| ==> fresh(slides[k])
      invariant forall k :: 0 <= k < |slides| ==> LoadedFrom(slides[k], path, loaded[k], read)
    {
      var slide := LoadIfImage(path, names, i, read);
      if slide.Some? {
        Paths.DistinctSnoc(slides, slide.value);
        slides := slides + [slide.value];
        loaded := loaded + [names[i]];
      }
      i := i + 1;
    }
    assert names[..i] == names;
  }

  /**
   * `sort(dir)` over the directory listing `listing`: the supported files in
   * sorted name order become unmarked slides, then duplicates are marked.
   * `sort` itself returns nothing; `slides` stands for its local list of
   * slides once the duplicates are marked.
   */
  method Sort<F>(path: string, listing: seq<string>, read: string -> F, same: (F, F) -> bool)
    returns (slides: seq<Slide<F>>)
    ensures |slides| == |SlideData.ImageFiles(path, listing)|
    ensures forall k :: 0 <= k < |slides| ==> fresh(slides[k])
    ensures forall k :: 0 <= k < |slides| ==>
      var name := SlideData.ImageFiles(path, listing)[k];
      slides[k].name == name && slides[k].img == read(Paths.PathJoin(path, name))
    ensures Flags(slides) == Duplicates(Imgs(slides), same)
  {
    slides := LoadSlides(path, Text.SortNames(listing), read);
    assert Flags(slides) == AllClear(|slides|);
    MarkDuplicates(slides, same);
  }
}

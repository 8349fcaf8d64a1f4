/**
 * `slides.py`: the slide record the timetable tools pass around, and the
 * helper that loads every image of a directory listing as a slide.
 */
module SlideData {
  import opened Wrappers
  import Paths
  import Text

  /**
   * A slide: `time` is the file name it was loaded from without its
   * extension (the timestamp the detector wrote it under), `times` the
   * further appearances recorded for it.
   */
  class Slide<F> {
    const time: string
    const img: F
    var marked: bool
    var times: seq<string>

    constructor (name: string, img: F)
      ensures time == Paths.SplitExt(name).0
      ensures time + Paths.Ext(name) == name
      ensures this.img == img && !marked && times == []
    {
      time := Paths.SplitExt(name).0;
      this.img := img;
      marked := false;
      times := [];
    }

    /** Records one more appearance, after all earlier ones; nothing else changes. */
    method AddTime(t: string)
      modifies this`times
      ensures times == old(times) + [t]
    {
      times := times + [t];
    }
  }

  /** The extensions both loaders accept. */
  const ImageExtensions: set<string> := {".jpeg", ".png", ".jpg", ".bmp"}

  /** `is_image`: one of the accepted extensions, compared case-sensitively. */
  predicate IsImage(ext: string)
    ensures IsImage(ext) <==> ext in ImageExtensions
    ensures IsImage(ext) ==> |ext| >= 4 && ext[0] == '.'
  {
    ext == ".jpeg" || ext == ".png" || ext == ".jpg" || ext == ".bmp"
  }

  /**
   * An image file named `stem + ext` yields a slide whose time is `stem`,
   * whenever the stem has no '/' and is not all dots.
   */
  lemma ImageNameSplits(stem: string, ext: string)
    requires IsImage(ext)
    requires forall k :: 0 <= k < |stem| ==> stem[k] != '/'
    requires exists k :: 0 <= k < |stem| && stem[k] != '.'
    ensures Paths.SplitExt(stem + ext) == (stem, ext)
    ensures IsImage(Paths.Ext(stem + ext))
  {
    Paths.SplitExtOfName(stem, ext);
  }

  /**
   * A name as the detector's timestamp writer makes it, clock time, '.',
   * three digits of milliseconds, then the format: the slide's time is the
   * whole timestamp, dot and milliseconds included.
   */
  lemma TimestampNameSplits()
    ensures Paths.SplitExt("0:00:01.500" + ".jpg") == ("0:00:01.500", ".jpg")
  {
    var stem := "0:00:01.500";
    assert stem[0] != '.';
    ImageNameSplits(stem, ".jpg");
  }

  /** Upper-case spellings are refused. */
  lemma IsImageCaseSensitive()
    ensures !IsImage(".JPG") && !IsImage(".PNG") && !IsImage(".Jpeg") && !IsImage(".BMP")
  {
  }

  /** The names `get_slides` loads, in the order it loads them. */
  function ImageFiles(path: string, listing: seq<string>): (names: seq<string>)
    ensures |names| <= |listing|
  {
    Paths.LoadOrder(listing, path, ImageExtensions)
  }

  /**
   * The loaded names are sorted, and a directory entry (a name without '/')
   * is loaded exactly when its own extension is an image extension.
   */
  lemma ImageFilesSpec(path: string, listing: seq<string>, x: string)
    requires forall k :: 0 <= k < |x| ==> x[k] != '/'
    ensures Text.Sorted(ImageFiles(path, listing))
    ensures x in ImageFiles(path, listing) <==> x in listing && IsImage(Paths.Ext(x))
  {
    Paths.LoadOrderSpec(listing, path, ImageExtensions);
    Paths.JoinKeepsExt(path, x);
  }

  /** `slide` is a new slide loaded from the file `name` of directory `path`, untouched since. */
  ghost predicate LoadedFrom<F>(slide: Slide<F>, path: string, name: string, read: string -> F)
    reads slide
  {
    && slide.time == Paths.SplitExt(name).0
    && slide.img == read(Paths.PathJoin(path, name))
    && !slide.marked && slide.times == []
  }

  /**
   * `SlideDataHelper(path).get_slides()` over the directory listing `listing`;
   * `read` stands for `cv2.imread`.
   */
  method GetSlides<F>(path: string, listing: seq<string>, read: string -> F) returns (slides: seq<Slide<F>>)
    ensures |slides| == |ImageFiles(path, listing)|
    ensures forall a, b :: 0 <= a < b < |slides| ==> slides[a] != slides[b]
    ensures forall k :: 0 <= k < |slides| ==> fresh(slides[k])
    ensures forall k :: 0 <= k < |slides| ==> LoadedFrom(slides[k], path, ImageFiles(path, listing)[k], read)
  {
    slides := LoadImages(path, Text.SortNames(listing), read);
  }

  /**
   * The body of the loading loop of `get_slides` for `names[i]`: the slide loaded
   * from it when its joined path has a supported extension, None otherwise.
   */
  method LoadIfImage<F>(path: string, names: seq<string>, i: nat, read: string -> F) returns (slide: Option<Slide<F>>)
    requires i < |names|
    ensures Paths.Accepted(names[..i + 1], path, ImageExtensions)
      == Paths.Accepted(names[..i], path, ImageExtensions) + (if slide.Some? then [names[i]] else [])
    ensures slide.Some? ==> fresh(slide.value) && LoadedFrom(slide.value, path, names[i], read)
  {
    Paths.AcceptedStep(names, i, path, ImageExtensions);
    var filePath := Paths.PathJoin(path, names[i]);
    var ext := Paths.Ext(filePath);
    if IsImage(ext) {
      var loaded := new Slide(names[i], read(filePath));
      slide := Some(loaded);
    } else {
      slide := None;
    }
  }

  /** The loop of `get_slides` over the sorted listing `names`. */
  method LoadImages<F>(path: string, names: seq<string>, read: string -> F) returns (slides: seq<Slide<F>>)
    ensures |slides| == |Paths.Accepted(names, path, ImageExtensions)|
    ensures forall a, b :: 0 <= a < b < |slides| ==> slides[a] != slides[b]
    ensures forall k :: 0 <= k < |slides| ==> fresh(slides[k])
    ensures forall k :: 0 <= k < |slides| ==> LoadedFrom(slides[k], path, Paths.Accepted(names, path, ImageExtensions)[k], read)
  {
    slides := [];
    ghost var loaded: seq<string> := [];
    var i := 0;
    while i < |names|
      invariant 0 <= i <= |names|
      invariant loaded == Paths.Accepted(names[..i], path, ImageExtensions)
      invariant |slides| == |loaded|
      invariant Paths.Distinct(slides)
      invariant forall k :: 0 <= k < |slides| ==> fresh(slides[k])
      invariant forall k :: 0 <= k < |slides| ==> LoadedFrom(slides[k], path, loaded[k], read)
    {
      var slide := LoadIfImage(path, names, i, read);
      if slide.Some? {
        Paths.DistinctSnoc(slides, slide.value);
        slides := slides + [slide.value];
        loaded := loaded + [names[i]];
      }
      i := i + 1;
    }
    assert names[..i] == names;
  }
}

/**
 * `mediaoutput.py`: the writers that put slides on disk. A writer's disk
 * is its log `written` of (file name, image) pairs, in the order
 * `cv2.imwrite` would receive them; the timetable text file is the list
 * of lines handed to it.
 */
module MediaOutput {
  import opened Wrappers
  import Text
  import SlideData

  /** `ImageWriter.__init__`: a file format gets a leading '.' unless it already has one. */
  function NormalizeFormat(format: string): (r: string)
    ensures |r| >= 1 && r[0] == '.'
    ensures |format| >= 1 && format[0] == '.' ==> r == format
    ensures !(|format| >= 1 && format[0] == '.') ==> r == "." + format
  {
    if |format| >= 1 && format[0] == '.' then format else "." + format
  }

  /** Normalising twice is normalising once. */
  lemma NormalizeFormatIdempotent(format: string)
    ensures NormalizeFormat(NormalizeFormat(format)) == NormalizeFormat(format)
  {
  }

  /** `prefix + '%d' + format` filled in with `number`. */
  function NumberedFile(prefix: string, number: int, format: string): string {
    prefix + Text.IntDecimal(number) + format
  }

  /** Two numbers give the same numbered file name only if they are equal. */
  lemma NumberedFileInjective(prefix: string, a: int, b: int, format: string)
    requires NumberedFile(prefix, a, format) == NumberedFile(prefix, b, format)
    ensures a == b
  {
    CustomNameInjective(prefix, Text.IntDecimal(a), Text.IntDecimal(b), format);
    Text.IntDecimalInjective(a, b);
  }

  /** `NullWriter`: `write` accepts anything and changes nothing. */
  class NullWriter {
    constructor ()
    {
    }

    method Write<F>(content: F, args: seq<string>)
      ensures unchanged(this)
    {
    }
  }

  /**
   * `IncrementalImageWriter`: the n-th image written (from 0) is named
   * `prefix + "%d" % (start + n * step) + format`.
   */
  class IncrementalImageWriter<F> {
    const prefix: string
    const format: string
    const step: int
    var count: int
    var written: seq<(string, F)>
    ghost const start: int
    /** How many names `next_name` has handed out. */
    ghost var names: nat

    ghost predicate Valid()
      reads this
    {
      count == start + (names - 1) * step
    }

    constructor (prefix: string, format: string := ".jpg", start: int := 0, step: int := 1)
      ensures Valid()
      ensures this.prefix == prefix && this.format == NormalizeFormat(format)
      ensures this.start == start && this.step == step && count == start - step
      ensures names == 0 && written == []
    {
      this.prefix := prefix;
      this.format := NormalizeFormat(format);
      this.step := step;
      count := start - step;
      written := [];
      this.start := start;
      names := 0;
    }

    /** `next_name`: the k-th call (from 0) returns `start + k * step`. */
    method NextName() returns (n: int)
      requires Valid()
      modifies this`count, this`names
      ensures Valid()
      ensures names == old(names) + 1
      ensures n == count == start + old(names) * step
    {
      count := count + step;
      names := names + 1;
      n := count;
    }

    /** `write(img)`: stores `img` under the next numbered name. */
    method Write(img: F)
      requires Valid()
      modifies this`count, this`names, this`written
      ensures Valid()
      ensures names == old(names) + 1
      ensures written == old(written) + [(NumberedFile(prefix, start + old(names) * step, format), img)]
    {
      var n := NextName();
      written := written + [(NumberedFile(prefix, n, format), img)];
    }
  }

  /** Why `name % next_name(args)` fails: the `'%s'` slot takes exactly one argument. */
  datatype FormatError = NotEnoughArguments | NotAllArgumentsConverted

  /**
   * `CustomImageWriter`: the file name is `prefix + name + format`, `name`
   * being the one extra argument of `write`. `write` hands its argument
   * tuple to `next_name` as a single value, which returns it whole, so the
   * `'%s'` substitution succeeds only for exactly one extra argument.
   */
  class CustomImageWriter<F> {
    const prefix: string
    const format: string
    var written: seq<(string, F)>

    constructor (prefix: string, format: string := ".jpg")
      ensures this.prefix == prefix && this.format == NormalizeFormat(format) && written == []
    {
      this.prefix := prefix;
      this.format := NormalizeFormat(format);
      written := [];
    }

    method Write(img: F, args: seq<string>) returns (error: Option<FormatError>)
      modifies this`written
      ensures error.None? <==> |args| == 1
      ensures error == Some(NotEnoughArguments) <==> args == []
      ensures |args| == 1 ==> written == old(written) + [(prefix + args[0] + format, img)]
      ensures |args| != 1 ==> written == old(written)
    {
      if |args| == 0 {
        error := Some(NotEnoughArguments);
      } else if |args| > 1 {
        error := Some(NotAllArgumentsConverted);
      } else {
        written := written + [(prefix + args[0] + format, img)];
        error := None;
      }
    }
  }

  /** Names built from the same prefix and format by `CustomImageWriter` differ when the names differ. */
  lemma CustomNameInjective(prefix: string, a: string, b: string, format: string)
    requires prefix + a + format == prefix + b + format
    ensures a == b
  {
    assert a == (prefix + a + format)[|prefix|..|prefix| + |a|];
    assert b == (prefix + b + format)[|prefix|..|prefix| + |b|];
  }

  // ---------------------------------------------------------------------------
  // TimetableWriter

  /** What `TimetableWriter.write` reads of a slide. */
  datatype Entry<F> = Entry(time: string, times: seq<string>, marked: bool, img: F)

  function Entries<F>(slides: seq<SlideData.Slide<F>>): (r: seq<Entry<F>>)
    reads set k | 0 <= k < |slides| :: slides[k]
    ensures |r| == |slides|
    ensures forall k :: 0 <= k < |slides| ==>
      r[k] == Entry(slides[k].time, slides[k].times, slides[k].marked, slides[k].img)
  {
    seq(|slides|, k reads slides requires 0 <= k < |slides| =>
      Entry(slides[k].time, slides[k].times, slides[k].marked, slides[k].img))
  }

  /** The unmarked entries, in their order. */
  function Kept<F>(entries: seq<Entry<F>>): (r: seq<Entry<F>>)
    ensures |r| <= |entries|
  {
    if entries == [] then []
    else
      var n := |entries| - 1;
      Kept(entries[..n]) + (if entries[n].marked then [] else [entries[n]])
  }

  /** A slide's appearances: its own time, then every later time after one space. */
  function Appearances(time: string, times: seq<string>): string {
    Text.Join([time] + times, ' ')
  }

  /** One line of the timetable. */
  function TimetableLine(number: nat, time: string, times: seq<string>): string {
    "Slide " + Text.Decimal(number) + ": " + Appearances(time, times) + "\n"
  }

  /** The timetable lines of the given slides, numbered from 1. */
  function Lines<F>(kept: seq<Entry<F>>): seq<string> {
    seq(|kept|, k requires 0 <= k < |kept| => TimetableLine(k + 1, kept[k].time, kept[k].times))
  }

  /** The image files of the given slides, numbered on from `base` images written before. */
  function Images<F>(prefix: string, format: string, kept: seq<Entry<F>>, base: nat): seq<(string, F)> {
    seq(|kept|, k requires 0 <= k < |kept| => (NumberedFile(prefix, base + k + 1, format), kept[k].img))
  }

  /** The lines one `write` call produces: the unmarked slides numbered from 1. */
  function Timetable<F>(entries: seq<Entry<F>>): seq<string> {
    Lines(Kept(entries))
  }

  /** The images one `write` call produces, numbered on from `base` images written before. */
  function NumberedImages<F>(prefix: string, format: string, entries: seq<Entry<F>>, base: nat): seq<(string, F)> {
    Images(prefix, format, Kept(entries), base)
  }

  lemma LinesSnoc<F>(prefix: string, format: string, kept: seq<Entry<F>>, e: Entry<F>, base: nat)
    ensures Lines(kept + [e]) == Lines(kept) + [TimetableLine(|kept| + 1, e.time, e.times)]
    ensures Images(prefix, format, kept + [e], base)
      == Images(prefix, format, kept, base) + [(NumberedFile(prefix, base + |kept| + 1, format), e.img)]
  {
  }

  /** Every kept entry is unmarked and comes from the input; every unmarked input entry is kept. */
  lemma {:induction false} KeptMembers<F>(entries: seq<Entry<F>>)
    ensures forall e :: e in Kept(entries) <==> e in entries && !e.marked
  {
    if entries != [] {
      var n := |entries| - 1;
      KeptMembers(entries[..n]);
      assert entries == entries[..n] + [entries[n]];
    }
  }

  /** Marked slides add nothing; kept slides keep their relative order. */
  lemma {:induction false} KeptAllUnmarked<F>(entries: seq<Entry<F>>)
    requires forall k :: 0 <= k < |entries| ==> !entries[k].marked
    ensures Kept(entries) == entries
  {
    if entries != [] {
      var n := |entries| - 1;
      KeptAllUnmarked(entries[..n]);
      assert entries == entries[..n] + [entries[n]];
    }
  }

  lemma KeptStep<F>(entries: seq<Entry<F>>, j: nat)
    requires j < |entries|
    ensures Kept(entries[..j + 1]) == Kept(entries[..j]) + (if entries[j].marked then [] else [entries[j]])
  {
    assert entries[..j + 1][..j] == entries[..j];
  }

  /**
   * The lines and images one `write` call produces: the k-th line (from 0)
   * carries slide number k + 1, and on a fresh writer the k-th image is
   * numbered k + 1 as well.
   */
  lemma TimetableNumbering<F>(prefix: string, format: string, entries: seq<Entry<F>>, k: nat)
    requires k < |Kept(entries)|
    ensures |Timetable(entries)| == |NumberedImages(prefix, format, entries, 0)| == |Kept(entries)|
    ensures Timetable(entries)[k] ==
      "Slide " + Text.Decimal(k + 1) + ": " + Appearances(Kept(entries)[k].time, Kept(entries)[k].times) + "\n"
    ensures NumberedImages(prefix, format, entries, 0)[k] ==
      (prefix + Text.Decimal(k + 1) + format, Kept(entries)[k].img)
  {
  }

  /** The inner loop of `write`: `time`, then `" " + t` for every `t` of `times`. */
  method JoinAppearances(time: string, times: seq<string>) returns (appearances: string)
    ensures appearances == Appearances(time, times)
  {
    appearances := time;
    var m := 0;
    while m < |times|
      invariant 0 <= m <= |times|
      invariant appearances == Text.Join([time] + times[..m], ' ')
    {
      Text.JoinSnoc([time] + times[..m], times[m], ' ');
      assert [time] + times[..m + 1] == [time] + times[..m] + [times[m]];
      appearances := appearances + " " + times[m];
      m := m + 1;
    }
    assert times[..m] == times;
  }

  /**
   * `TimetableWriter`: numbered images (from 1, continuing across calls)
   * and one timetable line per unmarked slide (numbered from 1 in each call).
   */
  class TimetableWriter<F> {
    const imgWriter: IncrementalImageWriter<F>
    var lines: seq<string>

    ghost predicate Valid()
      reads this, imgWriter
    {
      imgWriter.start == 1 && imgWriter.step == 1 && imgWriter.count == imgWriter.names
    }

    constructor (outputDir: string, format: string)
      ensures Valid() && fresh(imgWriter)
      ensures imgWriter.prefix == outputDir && imgWriter.format == NormalizeFormat(format)
      ensures imgWriter.names == 0 && imgWriter.written == [] && lines == []
    {
      imgWriter := new IncrementalImageWriter(outputDir, format, 1, 1);
      lines := [];
    }

    /**
     * The body of `write`'s loop for an unmarked slide: after the slides
     * `kept` it adds the next line and the next image.
     */
    method WriteSlide(slide: SlideData.Slide<F>, number: nat,
                      ghost lines0: seq<string>, ghost written0: seq<(string, F)>,
                      ghost kept: seq<Entry<F>>, ghost base: nat)
      requires Valid()
      requires number == |kept| + 1 && imgWriter.names == base + |kept|
      requires lines == lines0 + Lines(kept)
      requires imgWriter.written == written0 + Images(imgWriter.prefix, imgWriter.format, kept, base)
      modifies this`lines, imgWriter`count, imgWriter`names, imgWriter`written
      ensures Valid()
      ensures imgWriter.names == old(imgWriter.names) + 1
      ensures var e := Entry(slide.time, slide.times, slide.marked, slide.img);
        && lines == lines0 + Lines(kept + [e])
        && imgWriter.written == written0 + Images(imgWriter.prefix, imgWriter.format, kept + [e], base)
    {
      ghost var e := Entry(slide.time, slide.times, slide.marked, slide.img);
      LinesSnoc(imgWriter.prefix, imgWriter.format, kept, e, base);
      imgWriter.Write(slide.img);
      var appearances := JoinAppearances(slide.time, slide.times);
      lines := lines + ["Slide " + Text.Decimal(number) + ": " + appearances + "\n"];
    }

    method Write(slides: seq<SlideData.Slide<F>>)
      requires Valid()
      modifies this`lines, imgWriter`count, imgWriter`names, imgWriter`written
      ensures Valid()
      ensures lines == old(lines) + Timetable(Entries(slides))
      ensures imgWriter.names == old(imgWriter.names) + |Kept(Entries(slides))|
      ensures imgWriter.written == old(imgWriter.written)
        + NumberedImages(imgWriter.prefix, imgWriter.format, Entries(slides), old(imgWriter.names))
    {
      ghost var entries := Entries(slides);
      ghost var base := imgWriter.names;
      ghost var lines0, written0 := lines, imgWriter.written;
      ghost var prefix, format := imgWriter.prefix, imgWriter.format;
      ghost var kept: seq<Entry<F>> := [];
      var i := 1;
      var j := 0;
      while j < |slides|
        invariant 0 <= j <= |slides|
        invariant Valid()
        invariant forall k :: 0 <= k < |slides| ==>
          entries[k] == Entry(slides[k].time, slides[k].times, slides[k].marked, slides[k].img)
        invariant kept == Kept(entries[..j])
        invariant i == |kept| + 1
        invariant imgWriter.names == base + i - 1
        invariant lines == lines0 + Lines(kept)
        invariant imgWriter.written == written0 + Images(prefix, format, kept, base)
      {
        KeptStep(entries, j);
        var slide := slides[j];
        if !slide.marked {
          WriteSlide(slide, i, lines0, written0, kept, base);
          kept := kept + [entries[j]];
          i := i + 1;
        }
        j := j + 1;
      }
      assert entries[..j] == entries;
    }
  }
}

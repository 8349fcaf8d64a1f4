/**
 * `parser.py`: `SlideParser.parse` reads the timetable back. Line k belongs
 * to the k-th remaining slide; every time listed on the line becomes one
 * copy of that slide's image, named `reversed/<time>.jpg`. The file's
 * lines and the slide list are inputs; the image writer's log is the output.
 */
module SlideParsing {
  import opened Wrappers
  import Text
  import SlideData
  import MediaOutput

  /** The two ways `parse` stops early: `pop(0)` on no slides, `str.index` finding no ':'. */
  datatype ParseError = NoSlideLeft | NoColon

  /** The writer `parse` creates: `CustomImageWriter('reversed/')` with its default format. */
  const OutputPrefix: string := "reversed/"
  const OutputFormat: string := ".jpg"

  /** `line[line.index(':') + 2:].split(' ')`, or None where `index` raises. */
  function Tokens(line: string): (r: Option<seq<string>>)
    ensures r.None? <==> ':' !in line
    ensures r.Some? ==> |r.value| >= 1 && forall k :: 0 <= k < |r.value| ==> ' ' !in r.value[k]
  {
    match Text.IndexOf(line, ':')
    case None => None
    case Some(i) => Some(Text.Split(Text.SliceFrom(line, i + 2), ' '))
  }

  /** The files one line produces: one per token, in token order, all holding `img`. */
  function Files<F>(tokens: seq<string>, img: F): (r: seq<(string, F)>)
    ensures |r| == |tokens|
    ensures forall k :: 0 <= k < |r| ==> r[k] == (OutputPrefix + tokens[k] + OutputFormat, img)
  {
    seq(|tokens|, k requires 0 <= k < |tokens| => (OutputPrefix + tokens[k] + OutputFormat, img))
  }

  /** What `parse` leaves behind: the files written, how many slides it popped, and how it stopped. */
  datatype Outcome<F> = Outcome(written: seq<(string, F)>, consumed: nat, error: Option<ParseError>)

  /** `parse` over the lines `lines` and the images of the slides still to pop, `imgs`. */
  function ParseLines<F>(lines: seq<string>, imgs: seq<F>): (r: Outcome<F>)
    ensures r.consumed <= |lines| && r.consumed <= |imgs|
    decreases |lines|
  {
    if lines == [] then Outcome([], 0, None)
    else if imgs == [] then Outcome([], 0, Some(NoSlideLeft))
    else
      match Tokens(lines[0])
      case None => Outcome([], 1, Some(NoColon))
      case Some(tokens) =>
        var rest := ParseLines(lines[1..], imgs[1..]);
        Outcome(Files(tokens, imgs[0]) + rest.written, rest.consumed + 1, rest.error)
  }

  /**
   * How `parse` ends: without error after popping one slide per line; with
   * `NoSlideLeft` after popping every slide while lines remain; with
   * `NoColon` at the first line that has no ':', whose slide was popped.
   */
  lemma {:induction false} ParseLinesEnds<F>(lines: seq<string>, imgs: seq<F>)
    ensures var r := ParseLines(lines, imgs);
      && (r.error.None? ==> r.consumed == |lines|)
      && (r.error == Some(NoSlideLeft) ==> r.consumed == |imgs| < |lines|)
      && (r.error == Some(NoColon) ==> r.consumed >= 1 && ':' !in lines[r.consumed - 1])
      && (forall k :: 0 <= k < r.consumed && (r.error.None? || k < r.consumed - 1) ==> ':' in lines[k])
    decreases |lines|
  {
    if lines != [] && imgs != [] && ':' in lines[0] {
      ParseLinesEnds(lines[1..], imgs[1..]);
      var rest := ParseLines(lines[1..], imgs[1..]);
      assert forall k :: 1 <= k < 1 + rest.consumed ==> lines[k] == lines[1..][k - 1];
    }
  }

  /** One well-formed line with a slide for it: its files, then the rest. */
  lemma ParseStep<F>(lines: seq<string>, imgs: seq<F>, n: nat)
    requires n < |lines| && n < |imgs| && ':' in lines[n]
    ensures var rest := ParseLines(lines[n + 1..], imgs[n + 1..]);
      ParseLines(lines[n..], imgs[n..])
        == Outcome(Files(Tokens(lines[n]).value, imgs[n]) + rest.written, rest.consumed + 1, rest.error)
  {
    assert lines[n..][1..] == lines[n + 1..];
    assert imgs[n..][1..] == imgs[n + 1..];
  }

  /** Where `parse` stops at line `n`: the end of the lines, no slide left, or no ':'. */
  lemma ParseEnds<F>(lines: seq<string>, imgs: seq<F>, n: nat)
    requires n <= |lines| && n <= |imgs|
    ensures n == |lines| ==> ParseLines(lines[n..], imgs[n..]) == Outcome([], 0, None)
    ensures n < |lines| && n == |imgs| ==> ParseLines(lines[n..], imgs[n..]) == Outcome([], 0, Some(NoSlideLeft))
    ensures n < |lines| && n < |imgs| && ':' !in lines[n] ==>
      ParseLines(lines[n..], imgs[n..]) == Outcome([], 1, Some(NoColon))
  {
  }

  /** The outcome `o` of the lines after the first `n`, behind the files `w` written for those. */
  function After<F>(w: seq<(string, F)>, n: nat, o: Outcome<F>): (r: Outcome<F>)
    ensures |r.written| == |w| + |o.written|
    ensures r.written[..|w|] == w && r.written[|w|..] == o.written
    ensures r.consumed - n == o.consumed && r.error == o.error
  {
    Outcome(w + o.written, n + o.consumed, o.error)
  }

  /** The loop of `parse` keeps its invariant over one well-formed line. */
  lemma ParseAdvance<F>(total: Outcome<F>, w0: seq<(string, F)>, w1: seq<(string, F)>, lines: seq<string>, imgs: seq<F>, n: nat)
    requires n < |lines| && n < |imgs| && ':' in lines[n]
    requires w1 == w0 + Files(Tokens(lines[n]).value, imgs[n])
    requires total == After(w0, n, ParseLines(lines[n..], imgs[n..]))
    ensures total == After(w1, n + 1, ParseLines(lines[n + 1..], imgs[n + 1..]))
  {
    ParseStep(lines, imgs, n);
    var rest := ParseLines(lines[n + 1..], imgs[n + 1..]);
    var files := Files(Tokens(lines[n]).value, imgs[n]);
    assert ParseLines(lines[n..], imgs[n..]).written == files + rest.written;
    ConcatAssoc(w0, files, rest.written);
  }

  /** Once the rest of the lines writes nothing, the whole outcome is the files written so far. */
  lemma Settle<F>(total: Outcome<F>, w: seq<(string, F)>, n: nat, consumed: nat, error: Option<ParseError>)
    requires total == After(w, n, Outcome([], consumed, error))
    ensures total.written == w && total.consumed == n + consumed && total.error == error
  {
    assert w + [] == w;
  }

  lemma ConcatAssoc<T>(a: seq<T>, b: seq<T>, c: seq<T>)
    ensures a + (b + c) == (a + b) + c
  {
  }

  /** The images of a slide list, in order. */
  function Imgs<F>(slides: seq<SlideData.Slide<F>>): (r: seq<F>)
    ensures |r| == |slides|
    ensures forall k :: 0 <= k < |slides| ==> r[k] == slides[k].img
  {
    seq(|slides|, k requires 0 <= k < |slides| => slides[k].img)
  }

  /** `SlideParser`, holding the slides still to be matched with timetable lines. */
  class SlideParser<F> {
    var slides: seq<SlideData.Slide<F>>

    constructor (slides: seq<SlideData.Slide<F>>)
      ensures this.slides == slides
    {
      this.slides := slides;
    }

    /**
     * `parse`: pops one slide per line, front first, and writes its image
     * once per token of the line; stops at the first error.
     */
    method Parse(lines: seq<string>) returns (written: seq<(string, F)>, error: Option<ParseError>)
      modifies this`slides
      ensures var o := ParseLines(lines, Imgs(old(slides)));
        && written == o.written && error == o.error
        && slides == old(slides)[o.consumed..]
    {
      var writer := NewWriter<F>();
      ghost var slides0 := slides;
      ghost var imgs0 := Imgs(slides);
      ghost var total := ParseLines(lines, imgs0);
      assert lines[0..] == lines && imgs0[0..] == imgs0;
      var n := 0;
      while n < |lines|
        invariant 0 <= n <= |lines| && n <= |slides0|
        invariant slides == slides0[n..]
        invariant writer.prefix == OutputPrefix && writer.format == OutputFormat
        invariant total == After(writer.written, n, ParseLines(lines[n..], imgs0[n..]))
      {
        if slides == [] {
          ParseEnds(lines, imgs0, n);
          Settle(total, writer.written, n, 0, Some(NoSlideLeft));
          written, error := writer.written, Some(NoSlideLeft);
          return;
        }
        var slide := slides[0];
        slides := slides[1..];
        assert slides == slides0[n + 1..];
        var found := ParseLine(writer, slide.img, lines, imgs0, n, total);
        if !found {
          written, error := writer.written, Some(NoColon);
          return;
        }
        n := n + 1;
      }
      ParseEnds(lines, imgs0, n);
      Settle(total, writer.written, n, 0, None);
      written, error := writer.written, None;
    }
  }

  /**
   * One line of `parse` after its slide was popped: writes the line's files
   * when it has a ':', and says where that leaves the whole outcome.
   */
  method ParseLine<F>(writer: MediaOutput.CustomImageWriter<F>, img: F, lines: seq<string>, ghost imgs: seq<F>, n: nat, ghost total: Outcome<F>)
    returns (found: bool)
    requires n < |lines| && n < |imgs| && img == imgs[n]
    requires writer.prefix == OutputPrefix && writer.format == OutputFormat
    requires total == After(writer.written, n, ParseLines(lines[n..], imgs[n..]))
    modifies writer`written
    ensures found <==> ':' in lines[n]
    ensures found ==> total == After(writer.written, n + 1, ParseLines(lines[n + 1..], imgs[n + 1..]))
    ensures !found ==> total == Outcome(writer.written, n + 1, Some(NoColon))
  {
    ghost var before := writer.written;
    found := WriteLine(writer, img, lines[n]);
    if found {
      ParseAdvance(total, before, writer.written, lines, imgs, n);
    } else {
      ParseEnds(lines, imgs, n);
      assert before + [] == before;
    }
  }

  /** The writer `parse` starts from: `CustomImageWriter('reversed/')`, nothing written yet. */
  method NewWriter<F>() returns (writer: MediaOutput.CustomImageWriter<F>)
    ensures fresh(writer) && writer.written == []
    ensures writer.prefix == OutputPrefix && writer.format == OutputFormat
  {
    writer := new MediaOutput.CustomImageWriter<F>(OutputPrefix, OutputFormat);
  }

  /**
   * The body of `parse` for one line, after the pop: finds the ':' (false
   * when there is none, where `index` raises) and writes the line's files.
   */
  method WriteLine<F>(writer: MediaOutput.CustomImageWriter<F>, img: F, line: string) returns (found: bool)
    requires writer.prefix == OutputPrefix && writer.format == OutputFormat
    modifies writer`written
    ensures found <==> ':' in line
    ensures found ==> writer.written == old(writer.written) + Files(Tokens(line).value, img)
    ensures !found ==> writer.written == old(writer.written)
  {
    var index := Text.IndexOf(line, ':');
    if index.None? {
      return false;
    }
    var slideTimes := Text.Split(Text.SliceFrom(line, index.value + 2), ' ');
    WriteFiles(writer, img, slideTimes);
    found := true;
  }

  /** The inner loop of `parse`: one `write(img, t)` per token `t`, in order. */
  method WriteFiles<F>(writer: MediaOutput.CustomImageWriter<F>, img: F, tokens: seq<string>)
    requires writer.prefix == OutputPrefix && writer.format == OutputFormat
    modifies writer`written
    ensures writer.written == old(writer.written) + Files(tokens, img)
  {
    var t := 0;
    while t < |tokens|
      invariant 0 <= t <= |tokens|
      invariant writer.written == old(writer.written) + Files(tokens[..t], img)
    {
      var _ := writer.Write(img, [tokens[t]]);
      assert tokens[..t + 1] == tokens[..t] + [tokens[t]];
      t := t + 1;
    }
    assert tokens[..t] == tokens;
  }

  /** Concatenation of a list of lists. */
  function Flatten<T>(parts: seq<seq<T>>): (r: seq<T>)
    ensures parts == [] ==> r == []
  {
    if parts == [] then [] else parts[0] + Flatten(parts[1..])
  }

  /** The files of each line, line k with image k. */
  function LineFiles<F>(lines: seq<string>, imgs: seq<F>): (r: seq<seq<(string, F)>>)
    requires |lines| <= |imgs|
    requires forall k :: 0 <= k < |lines| ==> ':' in lines[k]
    ensures |r| == |lines|
    ensures forall k :: 0 <= k < |lines| ==> r[k] == Files(Tokens(lines[k]).value, imgs[k])
  {
    seq(|lines|, k requires 0 <= k < |lines| => Files(Tokens(lines[k]).value, imgs[k]))
  }

  /** The files of all lines are those of the first line, then those of the rest. */
  lemma LineFilesCons<F>(lines: seq<string>, imgs: seq<F>)
    requires 1 <= |lines| <= |imgs|
    requires forall k :: 0 <= k < |lines| ==> ':' in lines[k]
    ensures Flatten(LineFiles(lines, imgs))
      == Files(Tokens(lines[0]).value, imgs[0]) + Flatten(LineFiles(lines[1..], imgs[1..]))
  {
    var all := LineFiles(lines, imgs);
    var tail := LineFiles(lines[1..], imgs[1..]);
    forall k | 0 <= k < |tail|
      ensures all[1..][k] == tail[k]
    {
      assert lines[1..][k] == lines[k + 1] && imgs[1..][k] == imgs[k + 1];
    }
    assert all[1..] == tail;
  }

  /**
   * Line k is paired with slide k: when every line has a ':' and there are
   * enough slides, `parse` writes, line by line, the files of line k with
   * image k, and pops exactly one slide per line.
   */
  lemma {:induction false} ParsePairsLines<F>(lines: seq<string>, imgs: seq<F>)
    requires |lines| <= |imgs|
    requires forall k :: 0 <= k < |lines| ==> ':' in lines[k]
    ensures ParseLines(lines, imgs).error.None?
    ensures ParseLines(lines, imgs).consumed == |lines|
    ensures ParseLines(lines, imgs).written == Flatten(LineFiles(lines, imgs))
    decreases |lines|
  {
    if lines != [] {
      assert forall k :: 0 <= k < |lines[1..]| ==> lines[1..][k] == lines[k + 1];
      ParsePairsLines(lines[1..], imgs[1..]);
      LineFilesCons(lines, imgs);
    }
  }

  /** `":"` first occurs right after the slide number in a timetable line. */
  lemma ColonAfterNumber(number: nat, rest: string)
    ensures var line := "Slide " + Text.Decimal(number) + ": " + rest;
      Text.IndexOf(line, ':') == Some(6 + |Text.Decimal(number)|)
  {
    var d := Text.Decimal(number);
    var line := "Slide " + d + ": " + rest;
    var i := 6 + |d|;
    assert line[i] == ':';
    assert line[..i] == "Slide " + d;
    assert forall k :: 0 <= k < |d| ==> d[k] != ':';
    assert ':' !in line[..i];
  }

  /** The tokens of a timetable line are the words after "Slide <number>: ". */
  lemma TokensAfterNumber(number: nat, rest: string)
    ensures Tokens("Slide " + Text.Decimal(number) + ": " + rest) == Some(Text.Split(rest, ' '))
  {
    var d := Text.Decimal(number);
    var line := "Slide " + d + ": " + rest;
    ColonAfterNumber(number, rest);
    assert line[6 + |d| + 2..] == rest;
  }

  /**
   * Round trip: a timetable line without its "\n" gives back the slide's
   * time followed by its further times, when none of them holds a space.
   */
  lemma LineRoundTrip(number: nat, time: string, times: seq<string>)
    requires ' ' !in time && forall k :: 0 <= k < |times| ==> ' ' !in times[k]
    ensures var line := MediaOutput.TimetableLine(number, time, times);
      Tokens(line[..|line| - 1]) == Some([time] + times)
  {
    var a := MediaOutput.Appearances(time, times);
    var line := MediaOutput.TimetableLine(number, time, times);
    assert line[..|line| - 1] == "Slide " + Text.Decimal(number) + ": " + a;
    ColonAfterNumber(number, a);
    var d := Text.Decimal(number);
    assert ("Slide " + d + ": " + a)[6 + |d| + 2..] == a;
    Text.SplitJoin([time] + times, ' ');
  }

  /** `sep.join(parts) + "\n"` is `parts` joined with "\n" added to the last piece. */
  lemma {:induction false} JoinNewline(parts: seq<string>, sep: char)
    requires |parts| >= 1
    ensures Text.Join(parts, sep) + "\n" == Text.Join(parts[..|parts| - 1] + [parts[|parts| - 1] + "\n"], sep)
    decreases |parts|
  {
    if |parts| > 1 {
      JoinNewline(parts[1..], sep);
      var m := |parts| - 1;
      assert (parts[..m] + [parts[m] + "\n"])[1..] == parts[1..][..m - 1] + [parts[1..][m - 1] + "\n"];
    }
  }

  /** Adding a "\n" to the last of some pieces without spaces leaves them without spaces. */
  lemma NewlineKeepsNoSpace(parts: seq<string>)
    requires |parts| >= 1 && forall k :: 0 <= k < |parts| ==> ' ' !in parts[k]
    ensures var last := parts[..|parts| - 1] + [parts[|parts| - 1] + "\n"];
      forall k :: 0 <= k < |last| ==> ' ' !in last[k]
  {
    var last := parts[..|parts| - 1] + [parts[|parts| - 1] + "\n"];
    forall k | 0 <= k < |last|
      ensures ' ' !in last[k]
    {
      if k < |parts| - 1 {
        assert last[k] == parts[k];
      } else {
        assert last[k] == parts[k] + "\n";
      }
    }
  }

  /** Splitting pieces joined with spaces and a "\n" added gives the pieces back, the last with the "\n". */
  lemma SplitWithNewline(parts: seq<string>)
    requires |parts| >= 1 && forall k :: 0 <= k < |parts| ==> ' ' !in parts[k]
    ensures Text.Split(Text.Join(parts, ' ') + "\n", ' ') == parts[..|parts| - 1] + [parts[|parts| - 1] + "\n"]
  {
    JoinNewline(parts, ' ');
    NewlineKeepsNoSpace(parts);
    Text.SplitJoin(parts[..|parts| - 1] + [parts[|parts| - 1] + "\n"], ' ');
  }

  /**
   * As file iteration yields it, with the "\n" kept, a timetable line gives
   * back the same times except that the last one carries the "\n".
   */
  lemma LineWithNewline(number: nat, time: string, times: seq<string>)
    requires ' ' !in time && forall k :: 0 <= k < |times| ==> ' ' !in times[k]
    ensures var parts := [time] + times;
      Tokens(MediaOutput.TimetableLine(number, time, times))
        == Some(parts[..|parts| - 1] + [parts[|parts| - 1] + "\n"])
  {
    var parts := [time] + times;
    var a := MediaOutput.Appearances(time, times);
    assert MediaOutput.TimetableLine(number, time, times) == "Slide " + Text.Decimal(number) + ": " + (a + "\n");
    TokensAfterNumber(number, a + "\n");
    assert forall k :: 0 <= k < |parts| ==> ' ' !in parts[k] by {
      forall k | 0 <= k < |parts|
        ensures ' ' !in parts[k]
      {
        if k > 0 {
          assert parts[k] == times[k - 1];
        }
      }
    }
    SplitWithNewline(parts);
  }

  /** Every timetable line has its ':'. */
  lemma TimetableHasColons<F>(entries: seq<MediaOutput.Entry<F>>)
    ensures forall k :: 0 <= k < |MediaOutput.Timetable(entries)| ==> ':' in MediaOutput.Timetable(entries)[k]
  {
    var t := MediaOutput.Timetable(entries);
    forall k | 0 <= k < |t|
      ensures ':' in t[k]
    {
      var d := Text.Decimal(k + 1);
      assert t[k][6 + |d|] == ':';
    }
  }

  /**
   * Iterating over a text file: every line runs up to and including its
   * "\n", and a last piece without one is a line too.
   */
  function ReadLines(content: string): (r: seq<string>)
    ensures Flatten(r) == content
    decreases |content|
  {
    if content == [] then []
    else
      match Text.IndexOf(content, '\n')
      case None =>
        assert [content][1..] == [];
        [content]
      case Some(i) =>
        var rest := ReadLines(content[i + 1..]);
        assert ([content[..i + 1]] + rest)[1..] == rest;
        assert content == content[..i + 1] + content[i + 1..];
        [content[..i + 1]] + rest
  }

  /** A line as file iteration yields it: its only "\n" is its last character. */
  predicate IsLine(line: string) {
    |line| >= 1 && line[|line| - 1] == '\n' && '\n' !in line[..|line| - 1]
  }

  /** Writing lines one after the other and iterating over the file gives the same lines back. */
  lemma {:induction false} ReadLinesOfLines(lines: seq<string>)
    requires forall k :: 0 <= k < |lines| ==> IsLine(lines[k])
    ensures ReadLines(Flatten(lines)) == lines
    decreases |lines|
  {
    if lines != [] {
      var first := lines[0];
      var rest := Flatten(lines[1..]);
      var content := Flatten(lines);
      assert content == first + rest;
      assert content[..|first|] == first && content[|first|..] == rest;
      assert content[..|first| - 1] == first[..|first| - 1];
      Text.IndexOfFirst(content, '\n', |first| - 1);
      assert forall k :: 0 <= k < |lines[1..]| ==> lines[1..][k] == lines[k + 1];
      ReadLinesOfLines(lines[1..]);
      assert lines == [first] + lines[1..];
    }
  }

  /** A timetable line whose times hold no "\n" is read back as one line. */
  lemma TimetableLineIsLine(number: nat, time: string, times: seq<string>)
    requires '\n' !in time && forall k :: 0 <= k < |times| ==> '\n' !in times[k]
    ensures IsLine(MediaOutput.TimetableLine(number, time, times))
  {
    var parts := [time] + times;
    assert forall k :: 0 <= k < |parts| ==> '\n' !in parts[k] by {
      forall k | 0 <= k < |parts|
        ensures '\n' !in parts[k]
      {
        if k > 0 {
          assert parts[k] == times[k - 1];
        }
      }
    }
    Text.JoinAvoids(parts, ' ', '\n');
    var d := Text.Decimal(number);
    var a := MediaOutput.Appearances(time, times);
    var line := MediaOutput.TimetableLine(number, time, times);
    var body := "Slide " + d + ": " + a;
    assert line == body + "\n";
    assert line[..|line| - 1] == body;
    assert forall k :: 0 <= k < |d| ==> d[k] != '\n';
    assert '\n' !in body;
  }

  /** No time of the entry holds a "\n". */
  predicate NoNewline<F>(e: MediaOutput.Entry<F>) {
    '\n' !in e.time && forall k :: 0 <= k < |e.times| ==> '\n' !in e.times[k]
  }

  /** The `k`-th line of a timetable whose times hold no "\n" is one line as iteration yields it. */
  lemma TimetableLineAt<F>(entries: seq<MediaOutput.Entry<F>>, k: nat)
    requires forall e :: e in entries ==> NoNewline(e)
    requires k < |MediaOutput.Timetable(entries)|
    ensures IsLine(MediaOutput.Timetable(entries)[k])
  {
    MediaOutput.KeptMembers(entries);
    assert k < |MediaOutput.Kept(entries)|;
    assert MediaOutput.Kept(entries)[k] in MediaOutput.Kept(entries);
    assert NoNewline(MediaOutput.Kept(entries)[k]);
    TimetableLineIsLine(k + 1, MediaOutput.Kept(entries)[k].time, MediaOutput.Kept(entries)[k].times);
  }

  /** Every line of a timetable whose times hold no "\n" is read back as one line. */
  lemma TimetableReadsBack<F>(entries: seq<MediaOutput.Entry<F>>)
    requires forall e :: e in entries ==> NoNewline(e)
    ensures ReadLines(Flatten(MediaOutput.Timetable(entries))) == MediaOutput.Timetable(entries)
  {
    var t := MediaOutput.Timetable(entries);
    forall k | 0 <= k < |t|
      ensures IsLine(t[k])
    {
      TimetableLineAt(entries, k);
    }
    ReadLinesOfLines(t);
  }

  /**
   * The times `parse` reads from a kept slide's line: its appearances split
   * at spaces, the last one keeping the "\n" that file iteration leaves on.
   */
  function ReadTimes<F>(e: MediaOutput.Entry<F>): seq<string> {
    Text.Split(MediaOutput.Appearances(e.time, e.times) + "\n", ' ')
  }

  /** When no time holds a space, the times read back are the slide's own, the last with its "\n". */
  lemma ReadTimesOfSlide<F>(e: MediaOutput.Entry<F>)
    requires ' ' !in e.time && forall k :: 0 <= k < |e.times| ==> ' ' !in e.times[k]
    ensures var parts := [e.time] + e.times;
      ReadTimes(e) == parts[..|parts| - 1] + [parts[|parts| - 1] + "\n"]
  {
    var parts := [e.time] + e.times;
    forall k | 0 <= k < |parts|
      ensures ' ' !in parts[k]
    {
      if k > 0 {
        assert parts[k] == e.times[k - 1];
      }
    }
    SplitWithNewline(parts);
  }

  /** The files `parse` writes for the kept slides: slide k's times read back, with image k. */
  function SlideFiles<F>(kept: seq<MediaOutput.Entry<F>>, imgs: seq<F>): (r: seq<seq<(string, F)>>)
    requires |kept| <= |imgs|
    ensures |r| == |kept|
    ensures forall k :: 0 <= k < |kept| ==> r[k] == Files(ReadTimes(kept[k]), imgs[k])
  {
    seq(|kept|, k requires 0 <= k < |kept| => Files(ReadTimes(kept[k]), imgs[k]))
  }

  /** The files of a timetable's line k are those of kept slide k. */
  lemma TimetableLineFiles<F>(entries: seq<MediaOutput.Entry<F>>, imgs: seq<F>)
    requires |MediaOutput.Kept(entries)| <= |imgs|
    ensures forall k :: 0 <= k < |MediaOutput.Timetable(entries)| ==> ':' in MediaOutput.Timetable(entries)[k]
    ensures LineFiles(MediaOutput.Timetable(entries), imgs) == SlideFiles(MediaOutput.Kept(entries), imgs)
  {
    TimetableHasColons(entries);
    var t := MediaOutput.Timetable(entries);
    var kept := MediaOutput.Kept(entries);
    forall k | 0 <= k < |t|
      ensures Tokens(t[k]) == Some(ReadTimes(kept[k]))
    {
      var a := MediaOutput.Appearances(kept[k].time, kept[k].times);
      assert t[k] == "Slide " + Text.Decimal(k + 1) + ": " + (a + "\n");
      TokensAfterNumber(k + 1, a + "\n");
    }
  }

  /**
   * The timetable file one `TimetableWriter.write` produced, iterated over
   * line by line, gives back the lines written when no time holds a "\n";
   * with at least as many slides as lines it parses without error, pops
   * one slide per line and writes, slide after slide, each kept slide's
   * times read back with the image of the slide popped for it.
   */
  lemma ParseTimetable<F>(entries: seq<MediaOutput.Entry<F>>, imgs: seq<F>)
    requires |MediaOutput.Kept(entries)| <= |imgs|
    requires forall e :: e in entries ==> NoNewline(e)
    ensures ReadLines(Flatten(MediaOutput.Timetable(entries))) == MediaOutput.Timetable(entries)
    ensures ParseLines(ReadLines(Flatten(MediaOutput.Timetable(entries))), imgs).error.None?
    ensures ParseLines(ReadLines(Flatten(MediaOutput.Timetable(entries))), imgs).consumed == |MediaOutput.Kept(entries)|
    ensures ParseLines(ReadLines(Flatten(MediaOutput.Timetable(entries))), imgs).written
      == Flatten(SlideFiles(MediaOutput.Kept(entries), imgs))
  {
    TimetableReadsBack(entries);
    TimetableLineFiles(entries, imgs);
    ParsePairsLines(MediaOutput.Timetable(entries), imgs);
  }
}

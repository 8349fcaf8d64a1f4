# Slide transition detector — a Dafny model

The slide transition detector turns a recorded lecture into its slides:

- **Detection.** `detector.py` walks the video frame by frame and writes every frame that differs from the one before it.
- **Sorting.** `sorter.py` marks slides that repeat an earlier one.
- **Timetable.** `mediaoutput.TimetableWriter` writes each distinct slide once, with a timetable line listing when it appeared.
- **Reverse parsing.** `parser.py` reads that timetable back into one image per appearance.
- **Evaluation.** `alignment.py` builds synthetic slide sequences with random jumps back, and `levenshtein.py` measures how far two slide sequences are apart.
- **Image processing.** `imgprocessor.py` chains image processors.

This project models these pieces in Dafny and proves what they promise:

- **Streams and comparators.** Video streams are finite sequences of frames. Image comparison is a parameter `same`, and image reading is a parameter `read`.
- **Writers.** Each writer's disk is the log of (file name, image) pairs it would hand to `cv2.imwrite`.
- **State.** Objects whose fields the source updates in place are Dafny classes: slides, writers, the timeline and its sliding window, the parser, the aligner and the processor queue. Their methods are proved against specification functions, and the lemmas beside those functions state the properties.

Modules, one per source file, plus three shared helper modules:

- `Wrappers`: Python's None-or-value results.
- `Text`: `"%d"`, `str.index`, `str.split`, `sorted` on names.
- `Paths`: `os.path.splitext` and `os.path.join`, and the listing filter both loaders share.
- `SlideData`: slides.py.
- `Sorting`: sorter.py.
- `Timelines`: timeline.py.
- `Detection`: detector.py.
- `MediaOutput`: mediaoutput.py.
- `SlideParsing`: parser.py.
- `EditDistance`: levenshtein.py.
- `Alignment`: alignment.py.
- `ImageProcessing`: imgprocessor.py.

## Model

| member | source | states |
|---|---|---|
| Text.Decimal | mediaoutput.py:103 | `"%d"` of a natural number is a non-empty string of digits |
| Text.DecimalValue | mediaoutput.py:103 | reading the digits of `"%d" % n` back gives `n` |
| Text.IntDecimal | mediaoutput.py:103 | `"%d"` of a negative integer is '-' before the digits of its absolute value |
| Text.IntDecimalInjective | mediaoutput.py:103 | different integers render as different strings |
| Text.IndexOf | parser.py:29 | `str.index(':')` fails exactly when there is no ':'; otherwise it gives the first ':' |
| Text.SliceFrom | parser.py:29 | `line[i:]` is the suffix from `i`, or "" past the end |
| Text.Split | parser.py:29 | `split(' ')` gives at least one piece, no piece holds the separator, and joining the pieces gives the string back |
| Text.SplitJoin | parser.py:29 | splitting a join of separator-free pieces gives the pieces back |
| Text.SortNamesSorted | slides.py:47 | `sorted(listing)` is ascending and a permutation of the listing |
| Text.BelowTotal | slides.py:47 | the name order compares any two names |
| Text.BelowTransitive | slides.py:47 | the name order is transitive |
| Text.BelowAntisymmetric | slides.py:47 | names below each other are equal |
| Paths.RFindSpec | slides.py:15 | `rfind` finds an occurrence and none after it |
| Paths.SplitExtSpec | slides.py:15 | splitting a name into root and extension loses nothing; a non-empty extension is one '.' followed by neither '.' nor '/' |
| Paths.SplitExtOfName | slides.py:15 | a plain file name `stem + ext` splits into exactly its stem and its extension whenever the stem has no '/' and is not all dots; the stem may hold further dots unless there is no extension |
| Paths.PathJoinSpec | slides.py:48 | `os.path.join(dir, name)` ends with `name`, puts a '/' before a relative name, and an absolute name replaces the directory |
| Paths.JoinKeepsExt | slides.py:48-49 | a directory entry has the same extension as the joined path to it |
| Paths.SelectMembers | slides.py:50-53 | the kept names are exactly those whose flag is set |
| Paths.AcceptedMembers | slides.py:47-53 | a name is loaded exactly when its joined path has an accepted extension |
| Paths.LoadOrderSpec | slides.py:47-53 | the loaded names are in sorted order and are exactly the accepted entries of the listing |
| SlideData.Slide.constructor | slides.py:9-18 | `time` is the file name without its extension (time + extension == name), `marked` is False and `times` is empty |
| SlideData.Slide.AddTime | slides.py:20-26 | `times` gains one element at its end; nothing else changes |
| SlideData.IsImage | slides.py:58-64 | true for exactly `.jpeg`, `.png`, `.jpg`, `.bmp` |
| SlideData.IsImageCaseSensitive | slides.py:64 | upper-case spellings are refused |
| SlideData.ImageNameSplits | slides.py:15 | an image file `stem + ext` yields a slide whose time is `stem` whenever the stem has no '/' and is not all dots, dots inside the stem included |
| SlideData.TimestampNameSplits | mediaoutput.py:138 | a name as the timestamp writer makes it, "0:00:01.500.jpg", yields the time "0:00:01.500" |
| SlideData.ImageFilesSpec | slides.py:47-51 | the loaded names are sorted, and an entry is loaded exactly when its extension is an image extension |
| SlideData.GetSlides | slides.py:40-55 | one new, distinct slide per image file, in sorted name order, each loaded from its file |
| SlideData.LoadImages | slides.py:47-53 | the loop over the sorted listing makes one new slide per accepted name, in order |
| SlideData.LoadIfImage | slides.py:48-53 | one listing entry: a slide is made exactly when the entry passes the filter, and then it is loaded from the joined path |
| Sorting.Slide.constructor | sorter.py:35-39 | a new slide has the given name and image and is unmarked |
| Sorting.FileSupported | sorter.py:42-43 | true for exactly `.jpeg`, `.png`, `.jpg`, `.bmp` |
| Sorting.FileSupportedIsImage | sorter.py:42-43 | the sorter and the slide loader accept the same extensions |
| Sorting.ScannedKeeps | sorter.py:29-31 | a mark is never taken back during a pass |
| Sorting.ScannedBelow | sorter.py:23 | pass `i` touches only slide `i` and later slides |
| Sorting.ScannedAhead | sorter.py:23-31 | slides the inner loop has not reached keep their flag |
| Sorting.ScannedOwnMark | sorter.py:29-30 | during its pass, slide `i` becomes marked exactly when it matches a later slide that was already marked |
| Sorting.ScannedMarksMatches | sorter.py:28-31 | every later slide that matches slide `i` is marked by its pass |
| Sorting.MarksRise | sorter.py:29-31 | later passes only add marks |
| Sorting.MatchesEndMarked | sorter.py:18-31 | a slide unmarked when reached leaves every later matching slide marked at the end |
| Sorting.OwnPassMark | sorter.py:19-31 | after its own pass, slide `i` is marked iff it was already marked or it matches a later slide marked before the pass |
| Sorting.FirstUntouched | sorter.py:23 | passes after the first never touch slide 0 |
| Sorting.FirstNeverMarked | sorter.py:18-31 | the first slide is never marked, so a single slide gets no mark |
| Sorting.RepeatedSlideMarked | sorter.py:18-31 | for slides A, B, A, C only the second A is marked |
| Sorting.MatchOfMarkedSlideMarked | sorter.py:29-30 | a slide matching an already marked later slide is marked itself, even with a non-transitive comparison |
| Sorting.MarkDuplicates | sorter.py:18-31 | the marking loops leave exactly the flags the pass-by-pass specification gives |
| Sorting.Compare | sorter.py:24-31 | one step of the inner loop changes the flags exactly as the pass-by-pass specification does for that pair |
| Sorting.LoadSlides | sorter.py:8-14 | the loading loop makes one new, unmarked slide per supported name, in sorted order |
| Sorting.LoadIfImage | sorter.py:9-14 | one listing entry: a slide is made exactly when its extension is supported, and it starts unmarked |
| Sorting.Sort | sorter.py:6-31 | `sort` loads the supported files in name order and leaves the duplicate marks on them |
| Timelines.FrameAt | timeline.py:32-38 | a read yields the frame at the position, or None past the end |
| Timelines.FramesBetween | timeline.py:63-66 | `end - start` results, the k-th being the frame at `start + k` |
| Timelines.Timeline.constructor | timeline.py:12-21 | a new timeline reads from position 0 with `reader_head` 0 |
| Timelines.Timeline.NextFrame | timeline.py:23-38 | yields the frame at the read position (None at the end) and always advances `reader_head` by one |
| Timelines.Timeline.GetFrame | timeline.py:40-50 | as written: yields the last frame whatever `pos` is, and leaves `reader_head == pos + 1` |
| Timelines.FrameAsWritten | timeline.py:47-48 | what `get_frame` as written yields: the frame at `len - 1` |
| Timelines.GetFrameIgnoresPosition | timeline.py:47 | asked for frame 0 of [10, 20], `get_frame` as written yields 20, not 10 |
| Timelines.Timeline.SeekFrame | timeline.py:40-50 | corrected: yields the frame at `pos` and leaves `reader_head == pos + 1` |
| Timelines.Timeline.GetFrames | timeline.py:52-66 | `end - start` frames, the k-th being the frame at `start + k`; `reader_head` ends at `end` |
| Timelines.MovedRight | timeline.py:100 | `pos` goes up by one; `size` is unchanged |
| Timelines.MovedLeft | timeline.py:109 | `pos` goes down by one; `size` is unchanged |
| Timelines.ShrunkFromLeft | timeline.py:118-119 | the end `pos + size` stays put while `size` drops by one |
| Timelines.ShrunkFromRight | timeline.py:128 | `size` drops by one; `pos` is untouched |
| Timelines.ExpandedToLeft | timeline.py:137-138 | the end stays put while `size` grows by one |
| Timelines.ExpandedToRight | timeline.py:147 | `size` grows by one; `pos` is untouched |
| Timelines.OppositesCancel | timeline.py:100-147 | each move or resize is undone by its opposite |
| Timelines.ExpandRightReachesEnd | timeline.py:166-167 | a window that ended one frame short of the end and was grown on the right (`expand_to_right`, line 147) satisfies `at_end` |
| Timelines.SlidingWindow.constructor | timeline.py:80-91 | the window starts at `pos` with `size` frames on the given timeline |
| Timelines.SlidingWindow.MoveRight | timeline.py:93-100 | the window moves one frame right |
| Timelines.SlidingWindow.MoveLeft | timeline.py:102-109 | the window moves one frame left |
| Timelines.SlidingWindow.ShrinkFromLeft | timeline.py:111-119 | the window loses its first frame |
| Timelines.SlidingWindow.ShrinkFromRight | timeline.py:121-128 | the window loses its last frame |
| Timelines.SlidingWindow.ExpandToLeft | timeline.py:130-138 | the window gains the frame before it |
| Timelines.SlidingWindow.ExpandToRight | timeline.py:140-147 | the window gains the frame after it; a window that ended one frame short is then at the end |
| Timelines.SlidingWindow.GetFrames | timeline.py:149-155 | the frames at positions `pos .. pos + size - 1`, read through the corrected `SeekFrame`; `reader_head` ends at `pos + size` (unchanged for an empty window) |
| Timelines.SlidingWindow.GetFrame | timeline.py:157-158 | the frame at the window's start, whatever the argument, read through the corrected `SeekFrame`; `reader_head` ends at `pos + 1` |
| Timelines.SlidingWindow.GetStartFrame | timeline.py:160-161 | the first frame of the window, read through the corrected `SeekFrame`; `reader_head` ends at `pos + 1` |
| Timelines.SlidingWindow.GetEndFrame | timeline.py:163-164 | the last frame of the window, read through the corrected `SeekFrame`; `reader_head` ends at `pos + size` |
| Timelines.SlidingWindow.AtEnd | timeline.py:166-167 | for a non-empty window, `at_end` holds exactly when the window's last frame is the video's last frame (a frame exists there and none after it) |
| Detection.InfiniteCounter.constructor | detector.py:20-27 | the counter starts at `start` with the given step |
| Detection.InfiniteCounter.Count | detector.py:29-38 | the k-th value yielded (from 0) is `start + k * step` |
| Detection.Detections | detector.py:51-54 | the first thing written is the first read (None for an empty video), tagged 0 |
| Detection.AdjacentPairs | detector.py:64-71 | the comparisons are frame k against frame k + 1, once each, in order |
| Detection.DetectSlides | detector.py:48-76 | the writer receives exactly the specified emissions, and the comparator sees each adjacent pair once |
| Detection.ChangesSound | detector.py:61-69 | every emitted frame `j` differs from frame `j - 1` and is tagged `j - 1`; tags strictly increase |
| Detection.ChangesComplete | detector.py:68-69 | every frame that differs from its predecessor is emitted |
| Detection.DetectionsExact | detector.py:61-71 | a frame after the first is written, tagged with its predecessor's index, iff it differs from its immediate predecessor |
| Detection.ChangesUnchangedAbsent | detector.py:68 | a frame the comparator finds the same as its predecessor is not written |
| Detection.DetectionsTail | detector.py:54-69 | after the first emission come the changes |
| Detection.DetectionsOrdered | detector.py:61-69 | tags after the first strictly increase and are frame indices |
| Detection.DetectionsBound | detector.py:54-69 | never more emissions than frames (one for an empty video) |
| Detection.StillVideoOneSlide | detector.py:54-69 | when every adjacent pair compares the same, exactly one frame is written |
| Detection.NoChanges | detector.py:68-69 | no changes when every adjacent pair compares the same |
| Detection.ChangesNext | detector.py:64-69 | frame `j` adds its emission, if it differs from frame `j - 1`, after those of the frames before it |
| MediaOutput.NormalizeFormat | mediaoutput.py:44-45 | the format gets a leading '.' exactly when it lacks one |
| MediaOutput.NormalizeFormatIdempotent | mediaoutput.py:44-45 | normalising twice is normalising once |
| MediaOutput.NumberedFileInjective | mediaoutput.py:103 | different numbers give different file names under `prefix + '%d' + format` |
| MediaOutput.NullWriter.Write | mediaoutput.py:26-28 | `write` changes nothing |
| MediaOutput.IncrementalImageWriter.constructor | mediaoutput.py:92-104 | `count` starts at `start - step`; the format is normalised as the base initialiser (lines 37-48) does; nothing is written |
| MediaOutput.IncrementalImageWriter.NextName | mediaoutput.py:106-108 | the k-th call (from 0) returns `start + k * step` |
| MediaOutput.IncrementalImageWriter.Write | mediaoutput.py:50-56 | the image is stored under `prefix + "%d" % next + format`, `next` being what `next_name` (lines 106-108) returns |
| MediaOutput.CustomImageWriter.constructor | mediaoutput.py:73-79 | the file name is built from the prefix and the format, normalised as the base initialiser (lines 37-48) does |
| MediaOutput.CustomImageWriter.Write | mediaoutput.py:50-56 | the one extra argument, which `next_name` (lines 81-82) hands back, is the name between prefix and format; any other number of arguments fails and writes nothing |
| MediaOutput.CustomNameInjective | mediaoutput.py:79 | different names give different files |
| MediaOutput.Entries | mediaoutput.py:161-166 | what `write` reads of each slide, in order |
| MediaOutput.KeptMembers | mediaoutput.py:160-162 | the slides that get a line are exactly the unmarked ones |
| MediaOutput.KeptAllUnmarked | mediaoutput.py:160-162 | with no marks every slide gets a line, in input order |
| MediaOutput.KeptStep | mediaoutput.py:160-162 | one more slide adds itself when unmarked and nothing otherwise |
| MediaOutput.LinesSnoc | mediaoutput.py:163-168 | one more kept slide adds one line and one image, numbered next |
| MediaOutput.TimetableNumbering | mediaoutput.py:155-168 | on a fresh writer, images written = lines written = unmarked slides, and the k-th line and the k-th image both carry number k + 1 |
| MediaOutput.JoinAppearances | mediaoutput.py:164-166 | the appearances are `time`, then each element of `times` after one space |
| MediaOutput.TimetableWriter.constructor | mediaoutput.py:147-156 | the image writer numbers from 1 under the output directory with the normalised format |
| MediaOutput.TimetableWriter.WriteSlide | mediaoutput.py:163-168 | an unmarked slide adds the next line and the next image |
| MediaOutput.TimetableWriter.Write | mediaoutput.py:158-168 | the lines are `"Slide i: " + appearances + "\n"` for the unmarked slides, numbered from 1; the images continue the writer's numbering |
| SlideParsing.Tokens | parser.py:29 | None exactly when the line has no ':'; otherwise at least one token, none holding a space |
| SlideParsing.Files | parser.py:30-31 | one file per token, in token order, named `reversed/<token>.jpg`, all holding the slide's image |
| SlideParsing.ParseLines | parser.py:27-31 | `parse` pops at most one slide per line |
| SlideParsing.ParseLinesEnds | parser.py:27-31 | `parse` ends cleanly after one slide per line; with no slide left when lines remain; or with no ':' at the first line lacking one |
| SlideParsing.ParseStep | parser.py:27-31 | a well-formed line with a slide for it writes its files, then the rest follows |
| SlideParsing.ParseEnds | parser.py:27-29 | parsing stops at the end of the lines, at the first line with no slide left, or at the first line with no ':' |
| SlideParsing.ParseAdvance | parser.py:27-31 | the loop of `parse` keeps its invariant over one well-formed line |
| SlideParsing.ParseLine | parser.py:28-31 | one popped line writes its files when it has a ':'; otherwise `parse` stops there with that slide consumed |
| SlideParsing.NewWriter | parser.py:25 | the writer starts empty, with prefix `reversed/` and format `.jpg` |
| SlideParsing.SlideParser.constructor | parser.py:12-19 | the parser holds the given slides |
| SlideParsing.SlideParser.Parse | parser.py:21-31 | writes exactly the specified files, reports how it stopped, and leaves the slides it did not pop |
| SlideParsing.WriteLine | parser.py:29-31 | finds ':' exactly when the line has one, and then writes that line's files |
| SlideParsing.WriteFiles | parser.py:30-31 | one write per token, in token order |
| SlideParsing.ParsePairsLines | parser.py:27-31 | line k is paired with slide k: with enough slides and a ':' on every line, `parse` writes line by line the files of line k with image k and pops one slide per line |
| SlideParsing.ColonAfterNumber | mediaoutput.py:167 | the first ':' of a timetable line, which `parse` searches for (parser.py line 29), comes right after the slide number |
| SlideParsing.LineRoundTrip | parser.py:29 | a timetable line as mediaoutput.py lines 164-167 write it, without its "\n", gives back `[time] + times` when none holds a space |
| SlideParsing.LineWithNewline | parser.py:27-29 | with the "\n" kept, the last token carries it |
| SlideParsing.TimetableHasColons | mediaoutput.py:167 | every timetable line has a ':' |
| SlideParsing.ReadLines | parser.py:26-27 | iterating over the timetable file splits its text into lines, each ending just after a newline; joined again they give the file's text back |
| SlideParsing.ReadLinesOfLines | parser.py:26-27 | a file written as lines that each end with their only newline is read back as exactly those lines |
| SlideParsing.TimetableReadsBack | parser.py:26-27 | the text `TimetableWriter.write` writes (mediaoutput.py lines 158-168) reads back as the lines written, provided no slide time holds a newline |
| SlideParsing.ReadTimesOfSlide | parser.py:29 | when no time holds a space, the times `parse` splits off a slide's line are that slide's time and further times, the last keeping the line's newline |
| SlideParsing.TimetableLineFiles | parser.py:29-31 | the files `parse` writes for timetable line k are the files of kept slide k's times, read back, with image k |
| SlideParsing.ParseTimetable | parser.py:27-31 | the file `TimetableWriter.write` produces, iterated line by line, gives back the lines written when no time holds a newline; with enough slides it parses without error, pops one slide per line, and writes, slide after slide, each kept slide's read-back times with the image popped for it |
| EditDistance.Min3 | levenshtein.py:14 | the least of the three, and one of them |
| EditDistance.LevenshteinAsWritten | levenshtein.py:3-14 | as written: the distance lies between the length difference and the longer length |
| EditDistance.AsWrittenWithEq | levenshtein.py:3 | with the default `operator.eq`, the as-written and corrected distances agree |
| EditDistance.AsWrittenSelfAndSymmetric | levenshtein.py:7-14 | as written, a reflexive comparison gives distance 0 to itself and a symmetric one gives a symmetric distance |
| EditDistance.AsWrittenDropsComp | levenshtein.py:7-12 | with a comparison accepting every pair, `[0, 1]` and `[2, 3]` are at distance 1 as written and 0 when `comp` is passed down |
| EditDistance.Levenshtein | levenshtein.py:3-14 | corrected: the distance lies between the length difference and the longer length |
| EditDistance.EmptySide | levenshtein.py:4-5 | against an empty sequence the distance is the other length |
| EditDistance.SelfDistanceZero | levenshtein.py:10-12 | with a reflexive comparison a sequence is at distance 0 from itself |
| EditDistance.Symmetric | levenshtein.py:7-14 | with a symmetric comparison the distance is symmetric |
| EditDistance.ZeroIffEqual | levenshtein.py:3-12 | with `operator.eq` the distance is 0 exactly for equal sequences |
| EditDistance.OneInsertion | levenshtein.py:3-14 | `[0, 1, 2]` against `[0, 1, 1, 2]` is at distance 1 |
| Alignment.Reversed | alignment.py:37-38 | reversal keeps the length and reads the sequence backwards |
| Alignment.JumpSegment | alignment.py:37-40 | a jump back by `amount` has `2 * amount - 1` slides |
| Alignment.JumpSegmentSources | alignment.py:37-38 | the segment lists the `amount` slides before `index`, nearest first, then climbs back; every slide in it is an original from strictly before `index` |
| Alignment.JumpBacks | alignment.py:33-40 | None exactly when `index == 0` or `index - 1 - amount < 0`; otherwise the jump segment |
| Alignment.Piece | alignment.py:24-29 | every iteration appends at least its slide |
| Alignment.PieceShape | alignment.py:24-29 | a taken jump appends slide, segment, slide; otherwise only the slide |
| Alignment.PieceEndsWithSlide | alignment.py:29 | every iteration ends with its own slide |
| Alignment.AlignedLength | alignment.py:22-29 | the output length is the number of originals plus twice the amount of every taken jump |
| Alignment.AlignedGrows | alignment.py:22-29 | the output grows strictly with each iteration |
| Alignment.AlignedStep | alignment.py:22-29 | each iteration extends the output by its own piece |
| Alignment.AnchorHolds | alignment.py:22-29 | original `i` stays at its anchor position in every later output |
| Alignment.OriginalsInOrder | alignment.py:22-29 | the originals are an in-order subsequence of the output |
| Alignment.NoJumpsCopies | alignment.py:23-29 | with jump probability 0 and draws in [0, 1), the output is the originals |
| Alignment.Files | alignment.py:30-31 | the k-th image written after `base` earlier ones is named with number `base + k + 1` |
| Alignment.FilesSnoc | alignment.py:30-31 | naming one more image extends the earlier names with the next number |
| Alignment.FilesTake | alignment.py:30-31 | the names of the first `k + 1` images extend those of the first `k` |
| Alignment.BuildAligned | alignment.py:21-29 | the first loop builds exactly the specified aligned sequence |
| Alignment.AppendIteration | alignment.py:23-29 | one iteration of the first loop appends exactly its piece |
| Alignment.Aligner.constructor | alignment.py:9-18 | demands two positive jump bounds in order and a probability in [0, 1]; the writer numbers `.png` files from 1 |
| Alignment.Aligner.AlignSlides | alignment.py:20-31 | builds the aligned sequence and writes each slide of it, in order, under the next number |
| Alignment.Aligner.WriteNext | alignment.py:30-31 | one write of the second loop keeps its invariant |
| ImageProcessing.ProcessorList.constructor | imgprocessor.py:13 | a new list holds the given processors |
| ImageProcessing.ChainConcat | imgprocessor.py:22-24 | running the queue `f + g` is running `f`, then `g` |
| ImageProcessing.ChainHead | imgprocessor.py:22-24 | the head of the queue sees the image first |
| ImageProcessing.ImageProcessQueue.constructor | imgprocessor.py:12-16 | with no processors the queue is a new empty list; with a list, that very list (not a copy) becomes the queue |
| ImageProcessing.ImageProcessQueue.Add | imgprocessor.py:18-19 | the processor goes to the end; existing entries and their order are unchanged |
| ImageProcessing.ImageProcessQueue.Apply | imgprocessor.py:21-26 | each image goes through the processors in queue order; there are `len(imgs) * len(queue)` process calls; the queue is not modified; the input list is returned unchanged |

## Left out

- File and stream I/O are not modelled:
  - `setup_dirs`, `open` and the file writes of `TextWriter`;
  - `cv2.imwrite`, modelled as the writer's log;
  - `cv2.imread`, modelled as a function parameter;
  - `os.listdir`, modelled as an input listing;
  - the OpenCV capture, modelled as a finite sequence of frames.
- Image comparison (`imgcomparison.py`) is the parameter `same`. The histogram arithmetic is floating point and cv2.
- `TimestampImageWriter.next_name` is not modelled. It formats float seconds with `datetime`. The detector's writer is modelled as the sequence of (frame, counter) pairs it receives.
- `sanitize_device`, the progress UI, the `print` in `sort`, and the stand-alone scripts (generator, cleanup, extractor, main, eval, sources, analyzer) are not modelled.
- Writers are modelled only with a prefix, so the constructors take `prefix: string`. A `None` prefix is not modelled. `CustomImageWriter(None)` raises TypeError when constructed (mediaoutput.py line 79), and the other writers never set `self.name` (lines 47-49), so they raise AttributeError on their first `write` (line 56).
- Prefixes and formats are taken to contain no '%' of their own, so the `%` substitution is modelled as plain concatenation.
- Timelines.Timeline.GetFrames: reads each position with the corrected `SeekFrame`. As written, every `get_frame` call returns the last frame of the video (see Findings).
- Timelines.SlidingWindow.GetFrames: reads through the corrected `SeekFrame`. As written, every element is the last frame of the video.
- Timelines.SlidingWindow.GetFrame: does not use its argument, as in the source, which passes the window start to `get_frame`. It reads through the corrected `SeekFrame`, whereas as written it yields the last frame of the video.
- Timelines.SlidingWindow.GetStartFrame: reads through the corrected `SeekFrame`. As written, it yields the last frame of the video, not the window's first.
- Timelines.SlidingWindow.GetEndFrame: reads through the corrected `SeekFrame`. As written, it yields the last frame of the video, not the window's last.
- Alignment.Aligner.AlignSlides: the random draws are inputs, one `random.random()` value and one `randint(lower, upper)` amount per original. The source draws an amount only when the probability test passes.
- Alignment.Aligner.constructor: the originals are given as images rather than loaded from a directory. Loading is `SlideData.GetSlides`.
- SlideParsing.SlideParser.constructor: takes the slide list directly. `parser.py` imports its loader from a module that does not define it.
- SlideParsing.ParseTimetable: covers timetables whose slide times hold no newline. Such a time would split its line in two when the file is read back; `SlideParsing.ReadLines` still models that reading.
- SlideParsing.SlideParser.Parse: the timetable file is given as its list of lines, as `SlideParsing.ReadLines` splits them. A `pop(0)` on no slides and a `str.index` on a line without ':' are modelled as error results, where Python raises.
- ImageProcessing.ImageProcessQueue.Apply: a processor is the pure function its `process` computes. Processors that change an image in place, and their side effects, are not modelled. The per-image outputs are ghost because the source does not keep them.
- `ImageProcessor.process` is abstract in the source and is therefore not modelled.
- MediaOutput.IncrementalImageWriter.Write: numbers are unbounded integers, as Python's are.
- EditDistance.Levenshtein: `comp` has no default value. The source's default, `operator.eq`, is passed explicitly as `EditDistance.Eq`, as `EditDistance.AsWrittenWithEq` and `EditDistance.ZeroIffEqual` do. The other default arguments of the core are kept as parameter defaults.

## Findings

| source | as written | input that shows it | evidently intended | confidence | as-written member | corrected member |
|---|---|---|---|---|---|---|
| timeline.py:47 | `get_frame(pos)` seeks to `self.len - 1`, so it always reads the last frame | frames [10, 20], `get_frame(0)` yields 20 | seek to `pos`, as the docstring promises, and read the frame there | high, not executed | Timelines.GetFrameIgnoresPosition | Timelines.Timeline.SeekFrame |
| levenshtein.py:7-12 | the recursive calls leave out `comp`, so only the first pair is compared with `comp` and every later pair with `operator.eq` | `comp` accepting every pair, `[0, 1]` against `[2, 3]`: distance 1 | pass `comp` down, giving distance 0 | high, not executed | EditDistance.AsWrittenDropsComp | EditDistance.Levenshtein |

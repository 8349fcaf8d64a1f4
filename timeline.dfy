/**
 * `timeline.py`: a video stream read frame by frame (`Timeline`) and an
 * adaptive window over it (`SlidingWindow`). The stream is a finite
 * sequence of frames with a read position; a read past the end fails, as
 * OpenCV's `read` does, and yields None.
 */
module Timelines {
  import opened Wrappers

  /** What reading at stream position `p` yields: the frame there, or None past the end. */
  function FrameAt<F>(frames: seq<F>, p: int): (r: Option<F>)
    ensures r.None? <==> p < 0 || p >= |frames|
    ensures r.Some? ==> r.value == frames[p]
  {
    if 0 <= p < |frames| then Some(frames[p]) else None
  }

  /** The frames at positions `start .. end-1`, each as a read there yields it. */
  function FramesBetween<F>(frames: seq<F>, start: int, end: int): (r: seq<Option<F>>)
    requires start <= end
    ensures |r| == end - start
    ensures forall k :: 0 <= k < |r| ==> r[k] == FrameAt(frames, start + k)
  {
    seq(end - start, k requires 0 <= k < end - start => FrameAt(frames, start + k))
  }

  /**
   * What `get_frame` as written yields for any position: it seeks to the
   * last frame (`len - 1`) instead of to `pos`.
   */
  function FrameAsWritten<F>(frames: seq<F>, pos: int): (r: Option<F>)
    ensures r == FrameAt(frames, |frames| - 1)
  {
    if |frames| > 0 then Some(frames[|frames| - 1]) else None
  }

  /** `get_frame` as written returns the last frame even when asked for the first of two different ones. */
  lemma GetFrameIgnoresPosition()
    ensures FrameAsWritten([10, 20], 0) == Some(20)
    ensures FrameAt([10, 20], 0) == Some(10)
  {
  }

  /** A frame stream with a read position and the `reader_head` counter of `Timeline`. */
  class Timeline<F> {
    const frames: seq<F>
    const len: nat
    var cursor: nat
    var readerHead: int

    ghost predicate Valid()
      reads this
    {
      len == |frames| && cursor <= len
    }

    constructor (frames: seq<F>)
      ensures Valid()
      ensures this.frames == frames && cursor == 0 && readerHead == 0
    {
      this.frames := frames;
      len := |frames|;
      cursor := 0;
      readerHead := 0;
    }

    /** `next_frame`: reads at the current position; `reader_head` advances even at the end. */
    method NextFrame() returns (frame: Option<F>)
      requires Valid()
      modifies this`cursor, this`readerHead
      ensures Valid()
      ensures frame == FrameAt(frames, old(cursor))
      ensures cursor == if old(cursor) < len then old(cursor) + 1 else old(cursor)
      ensures readerHead == old(readerHead) + 1
    {
      readerHead := readerHead + 1;
      if cursor < len {
        frame := Some(frames[cursor]);
        cursor := cursor + 1;
      } else {
        frame := None;
      }
    }

    /** `get_frame(pos)` as written: seeks to the last frame, whatever `pos` is. */
    method GetFrame(pos: int) returns (frame: Option<F>)
      requires Valid() && pos >= 0
      modifies this`cursor, this`readerHead
      ensures Valid()
      ensures frame == FrameAsWritten(frames, pos)
      ensures readerHead == pos + 1
    {
      if len > 0 {
        cursor := len - 1;
        frame := Some(frames[cursor]);
        cursor := cursor + 1;
      } else {
        frame := None;
      }
      readerHead := pos + 1;
    }

    /** `get_frame(pos)` seeking to `pos`, as its documentation promises. */
    method SeekFrame(pos: int) returns (frame: Option<F>)
      requires Valid() && pos >= 0
      modifies this`cursor, this`readerHead
      ensures Valid()
      ensures frame == FrameAt(frames, pos)
      ensures readerHead == pos + 1
    {
      if pos < len {
        frame := Some(frames[pos]);
        cursor := pos + 1;
      } else {
        cursor := len;
        frame := None;
      }
      readerHead := pos + 1;
    }

    /** `get_frames(start, end)`: one frame per position `start .. end-1`, in order. */
    method GetFrames(start: int, end: int) returns (result: seq<Option<F>>)
      requires Valid() && 0 <= start <= end
      modifies this`cursor, this`readerHead
      ensures Valid()
      ensures result == FramesBetween(frames, start, end)
      ensures readerHead == if start < end then end else old(readerHead)
    {
      result := [];
      var i := start;
      while i < end
        invariant Valid()
        invariant start <= i <= end
        invariant result == FramesBetween(frames, start, i)
        invariant readerHead == if start < i then i else old(readerHead)
      {
        var frame := SeekFrame(i);
        result := result + [frame];
        i := i + 1;
      }
    }
  }

  /** The position and size of a sliding window. */
  datatype Extent = Extent(pos: int, size: int)

  /** One past the last position a window covers. */
  function End(w: Extent): int {
    w.pos + w.size
  }

  function MovedRight(w: Extent): (r: Extent)
    ensures r.pos == w.pos + 1 && r.size == w.size && End(r) == End(w) + 1
  {
    Extent(w.pos + 1, w.size)
  }

  function MovedLeft(w: Extent): (r: Extent)
    ensures r.pos == w.pos - 1 && r.size == w.size && End(r) == End(w) - 1
  {
    Extent(w.pos - 1, w.size)
  }

  function ShrunkFromLeft(w: Extent): (r: Extent)
    ensures End(r) == End(w) && r.size == w.size - 1
  {
    Extent(w.pos + 1, w.size - 1)
  }

  function ShrunkFromRight(w: Extent): (r: Extent)
    ensures r.pos == w.pos && r.size == w.size - 1
  {
    Extent(w.pos, w.size - 1)
  }

  function ExpandedToLeft(w: Extent): (r: Extent)
    ensures End(r) == End(w) && r.size == w.size + 1
  {
    Extent(w.pos - 1, w.size + 1)
  }

  function ExpandedToRight(w: Extent): (r: Extent)
    ensures r.pos == w.pos && r.size == w.size + 1
  {
    Extent(w.pos, w.size + 1)
  }

  /** Each move or resize is undone by its opposite. */
  lemma OppositesCancel(w: Extent)
    ensures MovedRight(MovedLeft(w)) == w && MovedLeft(MovedRight(w)) == w
    ensures ShrunkFromLeft(ExpandedToLeft(w)) == w && ExpandedToLeft(ShrunkFromLeft(w)) == w
    ensures ShrunkFromRight(ExpandedToRight(w)) == w && ExpandedToRight(ShrunkFromRight(w)) == w
  {
  }

  /** `SlidingWindow`: a window of `size` frames starting at `pos` on a timeline. */
  class SlidingWindow<F> {
    const timeline: Timeline<F>
    var pos: int
    var size: int

    function Span(): Extent
      reads this
    {
      Extent(pos, size)
    }

    constructor (timeline: Timeline<F>, pos: int := 0, size: int := 2)
      ensures this.timeline == timeline && Span() == Extent(pos, size)
    {
      this.timeline := timeline;
      this.pos := pos;
      this.size := size;
    }

    method MoveRight()
      modifies this`pos
      ensures Span() == MovedRight(old(Span()))
    {
      pos := pos + 1;
    }

    method MoveLeft()
      modifies this`pos
      ensures Span() == MovedLeft(old(Span()))
    {
      pos := pos - 1;
    }

    method ShrinkFromLeft()
      modifies this`pos, this`size
      ensures Span() == ShrunkFromLeft(old(Span()))
    {
      pos := pos + 1;
      size := size - 1;
    }

    method ShrinkFromRight()
      modifies this`size
      ensures Span() == ShrunkFromRight(old(Span()))
    {
      size := size - 1;
    }

    method ExpandToLeft()
      modifies this`pos, this`size
      ensures Span() == ExpandedToLeft(old(Span()))
    {
      pos := pos - 1;
      size := size + 1;
    }

    method ExpandToRight()
      modifies this`size
      ensures Span() == ExpandedToRight(old(Span()))
      ensures End(old(Span())) == timeline.len - 1 ==> AtEnd()
    {
      size := size + 1;
    }

    /**
     * `at_end`: the window reaches exactly to the timeline's frame count; for
     * a non-empty window, that is when its last frame is the video's last.
     */
    predicate AtEnd()
      reads this, timeline
      ensures timeline.Valid() && 0 <= pos && 0 < size ==>
        (AtEnd() <==> FrameAt(timeline.frames, End(Span()) - 1).Some? && FrameAt(timeline.frames, End(Span())).None?)
    {
      End(Span()) == timeline.len
    }

    /** `get_frames`: the frames the window covers, positions `pos .. pos+size-1`. */
    method GetFrames() returns (frames: seq<Option<F>>)
      requires timeline.Valid() && 0 <= pos && 0 <= size
      modifies timeline`cursor, timeline`readerHead
      ensures timeline.Valid()
      ensures frames == FramesBetween(timeline.frames, pos, End(Span()))
      ensures timeline.readerHead == if 0 < size then End(Span()) else old(timeline.readerHead)
    {
      frames := timeline.GetFrames(pos, pos + size);
    }

    /** `get_frame(p)`: asks the timeline for the window's start; the argument is not used. */
    method GetFrame(p: int) returns (frame: Option<F>)
      requires timeline.Valid() && 0 <= pos
      modifies timeline`cursor, timeline`readerHead
      ensures timeline.Valid()
      ensures frame == FrameAt(timeline.frames, pos)
      ensures timeline.readerHead == pos + 1
    {
      frame := timeline.SeekFrame(pos);
    }

    /** `get_start_frame`: the first frame of the window. */
    method GetStartFrame() returns (frame: Option<F>)
      requires timeline.Valid() && 0 <= pos
      modifies timeline`cursor, timeline`readerHead
      ensures timeline.Valid()
      ensures frame == FrameAt(timeline.frames, pos)
      ensures timeline.readerHead == pos + 1
    {
      frame := timeline.SeekFrame(pos);
    }

    /** `get_end_frame`: the last frame of the window. */
    method GetEndFrame() returns (frame: Option<F>)
      requires timeline.Valid() && 0 <= pos + size - 1
      modifies timeline`cursor, timeline`readerHead
      ensures timeline.Valid()
      ensures frame == FrameAt(timeline.frames, End(Span()) - 1)
      ensures timeline.readerHead == End(Span())
    {
      frame := timeline.SeekFrame(pos + size - 1);
    }
  }

  /**
   * A window that ended one frame short of the end and was then grown on
   * the right (`expand_to_right`) is at the end.
   */
  lemma ExpandRightReachesEnd<F>(window: SlidingWindow<F>, before: Extent)
    requires End(before) == window.timeline.len - 1
    requires window.Span() == ExpandedToRight(before)
    ensures window.AtEnd()
  {
  }
}

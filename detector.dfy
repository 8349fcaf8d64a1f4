/**
 * `detector.py`: the slide detector walks a video once, comparing every
 * frame with the one before it, and hands the first frame and every frame
 * that differs from its predecessor to an image writer together with a
 * frame counter. The comparator (`AbsDiffHistComparator`) is the parameter
 * `same`; the writer is the sequence of emissions it receives.
 */
module Detection {
  import opened Wrappers
  import Timelines

  /** `InfiniteCounter.count()`: a generator yielding start, start + step, start + 2*step, ... */
  class InfiniteCounter {
    var current: int
    const step: int
    /** Whether the generator has yielded and waits at its `yield`. */
    var suspended: bool
    ghost const start: int
    ghost var yielded: nat

    ghost predicate Valid()
      reads this
    {
      && suspended == (yielded > 0)
      && current == start + (if yielded == 0 then 0 else yielded - 1) * step
    }

    constructor (start: int := 0, step: int := 1)
      ensures Valid()
      ensures this.start == start && this.step == step && current == start && yielded == 0
    {
      current := start;
      this.step := step;
      suspended := false;
      this.start := start;
      yielded := 0;
    }

    /** The next value of the generator: the k-th call (from 0) yields `start + k * step`. */
    method Count() returns (n: int)
      requires Valid()
      modifies this`current, this`suspended, this`yielded
      ensures Valid()
      ensures yielded == old(yielded) + 1
      ensures n == start + old(yielded) * step
    {
      if suspended {
        current := current + step;
      }
      suspended := true;
      yielded := yielded + 1;
      n := current;
    }
  }

  /** One call of the slide writer's `write(img, num)`. */
  datatype Emission<F> = Emission(frame: Option<F>, tag: int)

  /**
   * The emissions for frames 1 .. n-1: frame j is written with counter value
   * j - 1 when it differs from frame j - 1.
   */
  function Changes<F>(frames: seq<F>, same: (F, F) -> bool, n: nat): (r: seq<Emission<F>>)
    requires n <= |frames|
    ensures |r| <= if n == 0 then 0 else n - 1
  {
    if n <= 1 then []
    else
      Changes(frames, same, n - 1)
      + (if !same(frames[n - 2], frames[n - 1]) then [Emission(Some(frames[n - 1]), n - 2)] else [])
  }

  /** Everything `detect_slides` writes: the first read (None for an empty video), then the changes. */
  function Detections<F>(frames: seq<F>, same: (F, F) -> bool): (r: seq<Emission<F>>)
    ensures |r| >= 1 && r[0].tag == 0
    ensures r[0].frame == Timelines.FrameAt(frames, 0)
  {
    if frames == [] then [Emission(None, 0)]
    else [Emission(Some(frames[0]), 0)] + Changes(frames, same, |frames|)
  }

  /** The pairs compared, in order: each frame after the first with its predecessor. */
  function AdjacentPairs(n: nat): (r: seq<(nat, nat)>)
    ensures |r| == if n == 0 then 0 else n - 1
    ensures forall k :: 0 <= k < |r| ==> r[k] == (k, k + 1)
  {
    if n <= 1 then [] else AdjacentPairs(n - 1) + [(n - 2, n - 1)]
  }

  /**
   * `detect_slides` over the frames of the video; `same` stands for the
   * comparator's `are_same`. Returns the writer's calls in order and, as a
   * ghost, the index pairs the comparator saw.
   */
  method DetectSlides<F>(frames: seq<F>, same: (F, F) -> bool)
    returns (emitted: seq<Emission<F>>, ghost compared: seq<(nat, nat)>)
    ensures emitted == Detections(frames, same)
    ensures compared == AdjacentPairs(|frames|)
  {
    var sequence := new Timelines.Timeline(frames);
    var prevFrame := sequence.NextFrame();
    emitted := [Emission(prevFrame, 0)];
    compared := [];
    var frameCounter := new InfiniteCounter(0, 1);
    while true
      invariant sequence.Valid() && sequence.frames == frames
      invariant frameCounter.Valid() && frameCounter.start == 0 && frameCounter.step == 1
      invariant frames == [] ==> sequence.cursor == 0
      invariant frames != [] ==> sequence.cursor == frameCounter.yielded + 1
      invariant sequence.cursor >= 1 ==> prevFrame == Some(frames[sequence.cursor - 1])
      invariant frames == [] ==> emitted == [Emission(None, 0)]
      invariant frames != [] ==> emitted == [Emission(Some(frames[0]), 0)] + Changes(frames, same, sequence.cursor)
      invariant compared == AdjacentPairs(sequence.cursor)
      decreases |frames| - sequence.cursor
    {
      var frameCount := frameCounter.Count();
      var frame := sequence.NextFrame();
      if frame.None? {
        assert sequence.cursor == |frames|;
        break;
      } else {
        ghost var j: nat := sequence.cursor - 1;
        assert j >= 1;
        ghost var i: nat := j - 1;
        assert frameCount == i && frame.value == frames[j] && prevFrame.value == frames[i];
        ChangesNext(frames, same, j);
        compared := compared + [(i, j)];
        if !same(prevFrame.value, frame.value) {
          emitted := emitted + [Emission(frame, frameCount)];
        }
      }
      prevFrame := frame;
    }
  }

  /** Frame `j` adds its emission, if any, to the changes of the frames before it. */
  lemma ChangesNext<F>(frames: seq<F>, same: (F, F) -> bool, j: nat)
    requires 1 <= j < |frames|
    ensures Changes(frames, same, j + 1)
      == Changes(frames, same, j) + (if !same(frames[j - 1], frames[j]) then [Emission(Some(frames[j]), j - 1)] else [])
  {
  }

  /** Every emission of `Changes` is a differing frame j, tagged j - 1, and the tags strictly increase. */
  lemma {:induction false} ChangesSound<F>(frames: seq<F>, same: (F, F) -> bool, n: nat)
    requires n <= |frames|
    ensures forall e :: e in Changes(frames, same, n) ==>
      0 <= e.tag && e.tag + 1 < n && e.frame == Some(frames[e.tag + 1]) && !same(frames[e.tag], frames[e.tag + 1])
    ensures forall a, b :: 0 <= a < b < |Changes(frames, same, n)| ==>
      Changes(frames, same, n)[a].tag < Changes(frames, same, n)[b].tag
  {
    if n > 1 {
      ChangesSound(frames, same, n - 1);
      var prefix := Changes(frames, same, n - 1);
      var last := if !same(frames[n - 2], frames[n - 1]) then [Emission(Some(frames[n - 1]), n - 2)] else [];
      var r := Changes(frames, same, n);
      assert r == prefix + last;
      forall e | e in r
        ensures 0 <= e.tag && e.tag + 1 < n && e.frame == Some(frames[e.tag + 1]) && !same(frames[e.tag], frames[e.tag + 1])
      {
        if e !in prefix {
          assert e in last;
        }
      }
      forall a, b | 0 <= a < b < |r|
        ensures r[a].tag < r[b].tag
      {
        assert r[a] == prefix[a];
        if b >= |prefix| {
          assert r[a] in prefix && r[b] == last[0];
        } else {
          assert r[b] == prefix[b];
        }
      }
    }
  }

  /** Every frame j that differs from frame j - 1 is emitted with tag j - 1. */
  lemma {:induction false} ChangesComplete<F>(frames: seq<F>, same: (F, F) -> bool, n: nat, j: nat)
    requires n <= |frames| && 1 <= j < n
    requires !same(frames[j - 1], frames[j])
    ensures Emission(Some(frames[j]), j - 1) in Changes(frames, same, n)
  {
    if j < n - 1 {
      ChangesComplete(frames, same, n - 1, j);
    }
  }

  /**
   * A frame after the first is written, with the counter value of its
   * predecessor, exactly when the comparator finds it differs from that
   * predecessor (the first frame is always written, with 0).
   */
  lemma DetectionsExact<F>(frames: seq<F>, same: (F, F) -> bool, j: nat)
    requires 1 <= j < |frames|
    ensures Emission(Some(frames[j]), j - 1) in Detections(frames, same)[1..] <==> !same(frames[j - 1], frames[j])
  {
    var e := Emission(Some(frames[j]), j - 1);
    var c := Changes(frames, same, |frames|);
    DetectionsTail(frames, same);
    if !same(frames[j - 1], frames[j]) {
      ChangesComplete(frames, same, |frames|, j);
      assert e in c;
    } else {
      ChangesUnchangedAbsent(frames, same, |frames|, j);
      assert e !in c;
    }
  }

  /** A frame the comparator finds the same as its predecessor is not among the changes. */
  lemma ChangesUnchangedAbsent<F>(frames: seq<F>, same: (F, F) -> bool, n: nat, j: nat)
    requires n <= |frames| && 1 <= j < |frames|
    requires same(frames[j - 1], frames[j])
    ensures Emission(Some(frames[j]), j - 1) !in Changes(frames, same, n)
  {
    ChangesSound(frames, same, n);
  }

  /** What follows the first emission are the changes. */
  lemma DetectionsTail<F>(frames: seq<F>, same: (F, F) -> bool)
    requires frames != []
    ensures Detections(frames, same)[1..] == Changes(frames, same, |frames|)
  {
  }

  /** After the first emission the tags strictly increase, and all of them are frame indices. */
  lemma DetectionsOrdered<F>(frames: seq<F>, same: (F, F) -> bool)
    ensures forall a, b :: 1 <= a < b < |Detections(frames, same)| ==>
      Detections(frames, same)[a].tag < Detections(frames, same)[b].tag
    ensures forall e :: e in Detections(frames, same) ==> 0 <= e.tag < if frames == [] then 1 else |frames|
  {
    if frames != [] {
      ChangesSound(frames, same, |frames|);
      DetectionsTail(frames, same);
      TailTags(Detections(frames, same), |frames|);
    }
  }

  /** A list whose head has tag 0 and whose tail is ordered by tag within [0, n). */
  lemma TailTags<F>(d: seq<Emission<F>>, n: nat)
    requires |d| >= 1 && d[0].tag == 0 && n >= 1
    requires forall a, b :: 0 <= a < b < |d[1..]| ==> d[1..][a].tag < d[1..][b].tag
    requires forall e :: e in d[1..] ==> 0 <= e.tag && e.tag + 1 < n
    ensures forall a, b :: 1 <= a < b < |d| ==> d[a].tag < d[b].tag
    ensures forall e :: e in d ==> 0 <= e.tag < n
  {
    forall a, b | 1 <= a < b < |d|
      ensures d[a].tag < d[b].tag
    {
      assert d[a] == d[1..][a - 1] && d[b] == d[1..][b - 1];
    }
    forall e | e in d
      ensures 0 <= e.tag < n
    {
      if e != d[0] {
        var k :| 0 <= k < |d| && d[k] == e;
        assert e == d[1..][k - 1];
      }
    }
  }

  /** At most one emission per frame (and one for an empty video). */
  lemma DetectionsBound<F>(frames: seq<F>, same: (F, F) -> bool)
    ensures |Detections(frames, same)| <= if frames == [] then 1 else |frames|
  {
  }

  /** A video whose consecutive frames all compare the same yields only its first frame. */
  lemma {:induction false} StillVideoOneSlide<F>(frames: seq<F>, same: (F, F) -> bool)
    requires forall j :: 1 <= j < |frames| ==> same(frames[j - 1], frames[j])
    ensures |Detections(frames, same)| == 1
  {
    if frames != [] {
      NoChanges(frames, same, |frames|);
    }
  }

  lemma {:induction false} NoChanges<F>(frames: seq<F>, same: (F, F) -> bool, n: nat)
    requires n <= |frames|
    requires forall j :: 1 <= j < n ==> same(frames[j - 1], frames[j])
    ensures Changes(frames, same, n) == []
  {
    if n > 1 {
      NoChanges(frames, same, n - 1);
    }
  }
}

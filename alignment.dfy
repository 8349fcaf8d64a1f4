/**
 * `alignment.py`: builds a synthetic slide sequence from the ordered
 * originals by occasionally jumping back — slide, a few earlier slides
 * backwards and forwards again, slide — and writes the result through an
 * incrementally numbered image writer. The random draws are inputs: one
 * `random.random()` value and one `random.randint(lower, upper)` amount per
 * original.
 */
module Alignment {
  import opened Wrappers
  import MediaOutput

  /** `s` read backwards. */
  function Reversed<T>(s: seq<T>): (r: seq<T>)
    ensures |r| == |s|
    ensures forall k :: 0 <= k < |s| ==> r[k] == s[|s| - 1 - k]
  {
    if s == [] then [] else [s[|s| - 1]] + Reversed(s[..|s| - 1])
  }

  /** Which original position k of a jump back from `index` by `amount` repeats. */
  function JumpBackSource(index: int, amount: int, k: int): int {
    if k < amount then index - 1 - k else index - 2 * amount + 1 + k
  }

  /** Whether a jump back by `amount` from `index` stays within the slides before it. */
  predicate JumpFits(index: int, amount: int) {
    !(index == 0 || index - 1 - amount < 0)
  }

  /**
   * The slides a jump back by `amount` from `index` repeats: the slide just
   * before `index` around the jump back by one less from there.
   */
  function JumpSegment<F>(originals: seq<F>, index: int, amount: int): (r: seq<F>)
    requires 0 <= index < |originals| && amount >= 1 && JumpFits(index, amount)
    ensures |r| == 2 * amount - 1
    decreases amount
  {
    if amount == 1 then [originals[index - 1]]
    else [originals[index - 1]] + JumpSegment(originals, index - 1, amount - 1) + [originals[index - 1]]
  }

  /**
   * A jump segment lists the `amount` slides before `index`, nearest first,
   * then climbs back without repeating the farthest: every slide in it is an
   * original from strictly before `index`, and no farther back than `amount`.
   */
  lemma {:induction false} JumpSegmentSources<F>(originals: seq<F>, index: int, amount: int)
    requires 0 <= index < |originals| && amount >= 1 && JumpFits(index, amount)
    ensures forall k :: 0 <= k < 2 * amount - 1 ==>
      index - amount <= JumpBackSource(index, amount, k) < index
      && JumpSegment(originals, index, amount)[k] == originals[JumpBackSource(index, amount, k)]
    decreases amount
  {
    if amount > 1 {
      JumpSegmentSources(originals, index - 1, amount - 1);
      var inner := JumpSegment(originals, index - 1, amount - 1);
      var r := JumpSegment(originals, index, amount);
      forall k | 0 <= k < 2 * amount - 1
        ensures r[k] == originals[JumpBackSource(index, amount, k)]
      {
        if 1 <= k < 2 * amount - 2 {
          assert r[k] == inner[k - 1];
        }
      }
    }
  }

  /**
   * `get_jump_backs(index)` with the drawn `amount`, slicing backwards and
   * reversing: None when the jump would reach before the first slide,
   * otherwise the jump segment.
   */
  function JumpBacks<F>(originals: seq<F>, index: int, amount: int): (r: Option<seq<F>>)
    requires 0 <= index < |originals| && amount >= 1
    ensures r.None? <==> !JumpFits(index, amount)
    ensures r.Some? ==> r.value == JumpSegment(originals, index, amount)
  {
    if index == 0 || index - 1 - amount < 0 then None
    else
      var backwards := Reversed(originals[index - amount..index]);
      var forwards := Reversed(backwards)[1..];
      JumpSegmentSources(originals, index, amount);
      assert forall k :: 0 <= k < 2 * amount - 1 ==>
        (backwards + forwards)[k] == originals[JumpBackSource(index, amount, k)];
      Some(backwards + forwards)
  }

  /** One draw per original: a probability and an amount of at least 1 (`randint(lower, upper)` with `lower > 0`). */
  predicate WellDrawn<F>(originals: seq<F>, draws: seq<real>, amounts: seq<int>) {
    && |draws| == |originals| && |amounts| == |originals|
    && forall k :: 0 <= k < |amounts| ==> amounts[k] >= 1
  }

  /** Whether iteration `idx` of `align_slides` inserts a jump back. */
  predicate Taken<F>(originals: seq<F>, draws: seq<real>, amounts: seq<int>, threshold: real, idx: nat)
    requires WellDrawn(originals, draws, amounts) && idx < |originals|
  {
    draws[idx] < threshold && JumpFits(idx, amounts[idx])
  }

  /** Which original position k of an iteration's output repeats, when it jumps back by `amount`. */
  function PieceSource(idx: int, amount: int, k: int): int {
    if k == 0 || k == 2 * amount then idx else JumpBackSource(idx, amount, k - 1)
  }

  /** What iteration `idx` appends: the slide, or the slide, its jump segment and the slide again. */
  function Piece<F>(originals: seq<F>, draws: seq<real>, amounts: seq<int>, threshold: real, idx: nat): (r: seq<F>)
    requires WellDrawn(originals, draws, amounts) && idx < |originals|
    ensures |r| >= 1
  {
    if Taken(originals, draws, amounts, threshold, idx) then
      var amount := amounts[idx];
      seq(2 * amount + 1, k requires 0 <= k < 2 * amount + 1 => originals[PieceSource(idx, amount, k)])
    else [originals[idx]]
  }

  /** An iteration appends the slide alone, or the slide around its jump segment. */
  lemma PieceShape<F>(originals: seq<F>, draws: seq<real>, amounts: seq<int>, threshold: real, idx: nat)
    requires WellDrawn(originals, draws, amounts) && idx < |originals|
    ensures !Taken(originals, draws, amounts, threshold, idx) ==>
      Piece(originals, draws, amounts, threshold, idx) == [originals[idx]]
    ensures Taken(originals, draws, amounts, threshold, idx) ==>
      Piece(originals, draws, amounts, threshold, idx)
        == [originals[idx]] + JumpSegment(originals, idx, amounts[idx]) + [originals[idx]]
  {
    var p := Piece(originals, draws, amounts, threshold, idx);
    if Taken(originals, draws, amounts, threshold, idx) {
      JumpSegmentSources(originals, idx, amounts[idx]);
      var q := [originals[idx]] + JumpSegment(originals, idx, amounts[idx]) + [originals[idx]];
      assert forall k :: 0 <= k < |p| ==> p[k] == q[k];
    }
  }

  /** Every iteration ends with its own slide. */
  lemma PieceEndsWithSlide<F>(originals: seq<F>, draws: seq<real>, amounts: seq<int>, threshold: real, idx: nat)
    requires WellDrawn(originals, draws, amounts) && idx < |originals|
    ensures var p := Piece(originals, draws, amounts, threshold, idx); p[|p| - 1] == originals[idx]
  {
  }

  /** `aligned` after the first `n` iterations. */
  function Aligned<F>(originals: seq<F>, draws: seq<real>, amounts: seq<int>, threshold: real, n: nat): seq<F>
    requires WellDrawn(originals, draws, amounts) && n <= |originals|
  {
    if n == 0 then []
    else Aligned(originals, draws, amounts, threshold, n - 1) + Piece(originals, draws, amounts, threshold, n - 1)
  }

  /** Iteration `n` extends the output of the iterations before it by its piece. */
  lemma AlignedStep<F>(originals: seq<F>, draws: seq<real>, amounts: seq<int>, threshold: real, n: nat)
    requires WellDrawn(originals, draws, amounts) && n < |originals|
    ensures Aligned(originals, draws, amounts, threshold, n + 1)
      == Aligned(originals, draws, amounts, threshold, n) + Piece(originals, draws, amounts, threshold, n)
  {
  }

  /** Twice the amount of every jump taken in the first `n` iterations. */
  function JumpTotal<F>(originals: seq<F>, draws: seq<real>, amounts: seq<int>, threshold: real, n: nat): nat
    requires WellDrawn(originals, draws, amounts) && n <= |originals|
  {
    if n == 0 then 0
    else
      JumpTotal(originals, draws, amounts, threshold, n - 1)
      + (if Taken(originals, draws, amounts, threshold, n - 1) then 2 * amounts[n - 1] else 0)
  }

  /** The output holds every original once more, plus twice the amount of each jump taken. */
  lemma {:induction false} AlignedLength<F>(originals: seq<F>, draws: seq<real>, amounts: seq<int>, threshold: real, n: nat)
    requires WellDrawn(originals, draws, amounts) && n <= |originals|
    ensures |Aligned(originals, draws, amounts, threshold, n)| == n + JumpTotal(originals, draws, amounts, threshold, n)
  {
    if n > 0 {
      AlignedLength(originals, draws, amounts, threshold, n - 1);
    }
  }

  /** Every iteration appends at least the slide itself, so the output grows strictly. */
  lemma {:induction false} AlignedGrows<F>(originals: seq<F>, draws: seq<real>, amounts: seq<int>, threshold: real, m: nat, n: nat)
    requires WellDrawn(originals, draws, amounts) && m < n <= |originals|
    ensures |Aligned(originals, draws, amounts, threshold, m)| < |Aligned(originals, draws, amounts, threshold, n)|
    decreases n
  {
    if m < n - 1 {
      AlignedGrows(originals, draws, amounts, threshold, m, n - 1);
    }
  }

  /** Where the copy of original `idx` that closes its iteration sits in the output. */
  function Anchor<F>(originals: seq<F>, draws: seq<real>, amounts: seq<int>, threshold: real, idx: nat): int
    requires WellDrawn(originals, draws, amounts) && idx < |originals|
  {
    |Aligned(originals, draws, amounts, threshold, idx + 1)| - 1
  }

  /** Original `i` sits at its anchor in the output of any later iteration. */
  lemma {:induction false} AnchorHolds<F>(originals: seq<F>, draws: seq<real>, amounts: seq<int>, threshold: real, n: nat, i: nat)
    requires WellDrawn(originals, draws, amounts) && i < n <= |originals|
    ensures 0 <= Anchor(originals, draws, amounts, threshold, i) < |Aligned(originals, draws, amounts, threshold, n)|
    ensures Aligned(originals, draws, amounts, threshold, n)[Anchor(originals, draws, amounts, threshold, i)] == originals[i]
    decreases n
  {
    var before := Aligned(originals, draws, amounts, threshold, n - 1);
    var piece := Piece(originals, draws, amounts, threshold, n - 1);
    var out := Aligned(originals, draws, amounts, threshold, n);
    var anchor := Anchor(originals, draws, amounts, threshold, i);
    AlignedStep(originals, draws, amounts, threshold, n - 1);
    assert out == before + piece;
    if i < n - 1 {
      AnchorHolds(originals, draws, amounts, threshold, n - 1, i);
      assert 0 <= anchor < |before| && before[anchor] == originals[i];
      IndexLeft(before, piece, anchor);
      assert out[anchor] == before[anchor];
    } else {
      PieceEndsWithSlide(originals, draws, amounts, threshold, i);
      IndexLast(before, piece);
      assert anchor == |out| - 1;
      assert out[anchor] == piece[|piece| - 1];
    }
  }

  lemma IndexLeft<T>(a: seq<T>, b: seq<T>, k: int)
    requires 0 <= k < |a|
    ensures (a + b)[k] == a[k]
  {
  }

  lemma IndexLast<T>(a: seq<T>, b: seq<T>)
    requires |b| >= 1
    ensures (a + b)[|a + b| - 1] == b[|b| - 1]
  {
  }

  /**
   * The originals form an in-order subsequence of the output: original `i`
   * sits at its anchor, and the anchors strictly increase.
   */
  lemma OriginalsInOrder<F>(originals: seq<F>, draws: seq<real>, amounts: seq<int>, threshold: real, n: nat, i: nat, j: nat)
    requires WellDrawn(originals, draws, amounts) && i < j < n <= |originals|
    ensures var out := Aligned(originals, draws, amounts, threshold, n);
      && 0 <= Anchor(originals, draws, amounts, threshold, i) < Anchor(originals, draws, amounts, threshold, j) < |out|
      && out[Anchor(originals, draws, amounts, threshold, i)] == originals[i]
      && out[Anchor(originals, draws, amounts, threshold, j)] == originals[j]
  {
    AlignedGrows(originals, draws, amounts, threshold, i + 1, j + 1);
    assert Anchor(originals, draws, amounts, threshold, i) < Anchor(originals, draws, amounts, threshold, j);
    AnchorHolds(originals, draws, amounts, threshold, n, i);
    AnchorHolds(originals, draws, amounts, threshold, n, j);
  }

  /** With jump probability 0 no draw in [0, 1) is below it, and the output is the originals. */
  lemma {:induction false} NoJumpsCopies<F>(originals: seq<F>, draws: seq<real>, amounts: seq<int>, n: nat)
    requires WellDrawn(originals, draws, amounts) && n <= |originals|
    requires forall k :: 0 <= k < |draws| ==> 0.0 <= draws[k] < 1.0
    ensures Aligned(originals, draws, amounts, 0.0, n) == originals[..n]
  {
    if n > 0 {
      NoJumpsCopies(originals, draws, amounts, n - 1);
      assert originals[..n] == originals[..n - 1] + [originals[n - 1]];
    }
  }

  /** The file names `IncrementalImageWriter(start=1)` gives the images after `base` earlier ones. */
  function Files<F>(prefix: string, format: string, imgs: seq<F>, base: int): (r: seq<(string, F)>)
    ensures |r| == |imgs|
    ensures forall k :: 0 <= k < |r| ==> r[k] == (MediaOutput.NumberedFile(prefix, base + k + 1, format), imgs[k])
  {
    seq(|imgs|, k requires 0 <= k < |imgs| => (MediaOutput.NumberedFile(prefix, base + k + 1, format), imgs[k]))
  }

  /** Naming one more image extends the names of those before it. */
  lemma FilesSnoc<F>(prefix: string, format: string, imgs: seq<F>, img: F, base: int)
    ensures Files(prefix, format, imgs + [img], base)
      == Files(prefix, format, imgs, base) + [(MediaOutput.NumberedFile(prefix, base + |imgs| + 1, format), img)]
  {
    var longer := Files(prefix, format, imgs + [img], base);
    var shorter := Files(prefix, format, imgs, base);
    var last := (MediaOutput.NumberedFile(prefix, base + |imgs| + 1, format), img);
    forall k | 0 <= k < |longer|
      ensures longer[k] == (shorter + [last])[k]
    {
      if k < |imgs| {
        assert (imgs + [img])[k] == imgs[k];
        assert longer[k] == shorter[k];
      } else {
        assert k == |imgs| && (imgs + [img])[k] == img;
        assert longer[k] == last;
      }
    }
  }

  /** The names of the first `k + 1` images extend those of the first `k`. */
  lemma FilesTake<F>(prefix: string, format: string, imgs: seq<F>, k: nat, base: int)
    requires k < |imgs|
    ensures Files(prefix, format, imgs[..k + 1], base)
      == Files(prefix, format, imgs[..k], base) + [(MediaOutput.NumberedFile(prefix, base + k + 1, format), imgs[k])]
  {
    assert imgs[..k + 1] == imgs[..k] + [imgs[k]];
    FilesSnoc(prefix, format, imgs[..k], imgs[k], base);
  }

  /**
   * The first loop of `align_slides`: per original, a jump back when the
   * draw is below the jump probability and `get_jump_backs` finds room,
   * then the slide itself.
   */
  method BuildAligned<F>(originals: seq<F>, threshold: real, draws: seq<real>, amounts: seq<int>) returns (aligned: seq<F>)
    requires WellDrawn(originals, draws, amounts)
    ensures aligned == Aligned(originals, draws, amounts, threshold, |originals|)
  {
    aligned := [];
    var idx := 0;
    while idx < |originals|
      invariant 0 <= idx <= |originals|
      invariant aligned == Aligned(originals, draws, amounts, threshold, idx)
    {
      aligned := AppendIteration(originals, threshold, draws, amounts, aligned, idx);
      AlignedStep(originals, draws, amounts, threshold, idx);
      idx := idx + 1;
    }
  }

  /** The body of the first loop of `align_slides` for iteration `idx`: it appends that iteration's piece. */
  method AppendIteration<F>(originals: seq<F>, threshold: real, draws: seq<real>, amounts: seq<int>, aligned: seq<F>, idx: nat)
    returns (next: seq<F>)
    requires WellDrawn(originals, draws, amounts) && idx < |originals|
    ensures next == aligned + Piece(originals, draws, amounts, threshold, idx)
  {
    var slide := originals[idx];
    PieceShape(originals, draws, amounts, threshold, idx);
    next := aligned;
    var prob := draws[idx];
    if prob < threshold {
      var prefix := JumpBacks(originals, idx, amounts[idx]);
      if prefix.Some? {
        next := next + [slide];
        next := next + prefix.value;
        assert next == aligned + ([slide] + prefix.value);
      }
    }
    next := next + [slide];
  }

  /** `Aligner`: the originals, the jump range, the jump probability and the writer. */
  class Aligner<F> {
    const originals: seq<F>
    const lower: int
    const upper: int
    const threshold: real
    const writer: MediaOutput.IncrementalImageWriter<F>

    ghost predicate Valid()
      reads this, writer
    {
      && 0 < lower <= upper && 0.0 <= threshold <= 1.0
      && writer.Valid() && writer.start == 1 && writer.step == 1
    }

    /**
     * `Aligner.__init__` over the images of the loaded slides: the jump
     * range holds two positive bounds in order and the probability lies in
     * [0, 1]; the writer numbers `.png` files from 1.
     */
    constructor (originals: seq<F>, output: string, jumpProbability: real, jumpRange: seq<int>)
      requires |jumpRange| == 2 && jumpRange[0] > 0 && jumpRange[1] > 0
      requires jumpRange[0] <= jumpRange[1]
      requires 0.0 <= jumpProbability <= 1.0
      ensures Valid() && fresh(writer)
      ensures this.originals == originals && lower == jumpRange[0] && upper == jumpRange[1]
      ensures threshold == jumpProbability
      ensures writer.prefix == output && writer.format == ".png" && writer.names == 0 && writer.written == []
    {
      this.originals := originals;
      lower := jumpRange[0];
      upper := jumpRange[1];
      threshold := jumpProbability;
      writer := new MediaOutput.IncrementalImageWriter(output, "png", 1, 1);
    }

    /**
     * `align_slides`, with `draws[idx]` for `random.random()` and
     * `amounts[idx]` for the `randint` of iteration `idx`: builds the
     * aligned sequence, then writes it in order.
     */
    method AlignSlides(draws: seq<real>, amounts: seq<int>) returns (aligned: seq<F>)
      requires Valid()
      requires |draws| == |originals| && |amounts| == |originals|
      requires forall k :: 0 <= k < |amounts| ==> lower <= amounts[k] <= upper
      modifies writer`count, writer`names, writer`written
      ensures Valid()
      ensures WellDrawn(originals, draws, amounts)
      ensures aligned == Aligned(originals, draws, amounts, threshold, |originals|)
      ensures writer.names == old(writer.names) + |aligned|
      ensures writer.written == old(writer.written) + Files(writer.prefix, writer.format, aligned, old(writer.names))
    {
      aligned := BuildAligned(originals, threshold, draws, amounts);
      ghost var base := writer.names;
      ghost var written0 := writer.written;
      var k := 0;
      while k < |aligned|
        invariant 0 <= k <= |aligned|
        invariant Valid() && writer.names == base + k
        invariant writer.written == written0 + Files(writer.prefix, writer.format, aligned[..k], base)
      {
        WriteNext(aligned, k, written0, base);
        k := k + 1;
      }
      assert aligned[..k] == aligned;
    }

    /** One `writer.write(slide)` of the second loop, keeping its invariant. */
    method WriteNext(aligned: seq<F>, k: nat, ghost written0: seq<(string, F)>, ghost base: nat)
      requires k < |aligned|
      requires writer.Valid() && writer.start == 1 && writer.step == 1 && writer.names == base + k
      requires writer.written == written0 + Files(writer.prefix, writer.format, aligned[..k], base)
      modifies writer`count, writer`names, writer`written
      ensures writer.Valid() && writer.names == base + k + 1
      ensures writer.written == written0 + Files(writer.prefix, writer.format, aligned[..k + 1], base)
    {
      ghost var before := writer.written;
      ghost var number := writer.start + writer.names * writer.step;
      assert number == base + k + 1;
      writer.Write(aligned[k]);
      FilesTake(writer.prefix, writer.format, aligned, k, base);
      assert writer.written == before + [(MediaOutput.NumberedFile(writer.prefix, base + k + 1, writer.format), aligned[k])];
    }
  }
}

/**
 * `imgprocessor.py`: a queue of image processors applied, in queue order,
 * to every image of a list. A processor is modelled by the function its
 * `process` method computes on one image.
 */
module ImageProcessing {
  import opened Wrappers

  /** A Python list of processors: an object, so that two owners can share it. */
  class ProcessorList<I> {
    var items: seq<I -> I>

    constructor (items: seq<I -> I>)
      ensures this.items == items
    {
      this.items := items;
    }
  }

  /** `img` passed through every processor of `fs`, first to last. */
  function Chain<I>(fs: seq<I -> I>, img: I): I
    decreases |fs|
  {
    if |fs| == 0 then img else fs[|fs| - 1](Chain(fs[..|fs| - 1], img))
  }

  /** Running `f` and then `g` is running the queue `f + g`. */
  lemma {:induction false} ChainConcat<I>(f: seq<I -> I>, g: seq<I -> I>, img: I)
    ensures Chain(f + g, img) == Chain(g, Chain(f, img))
    decreases |g|
  {
    if |g| == 0 {
      assert f + g == f;
    } else {
      assert (f + g)[..|f + g| - 1] == f + g[..|g| - 1];
      ChainConcat(f, g[..|g| - 1], img);
    }
  }

  /** The head of the queue sees the image first. */
  lemma ChainHead<I>(p: I -> I, fs: seq<I -> I>, img: I)
    ensures Chain([p] + fs, img) == Chain(fs, p(img))
  {
    ChainConcat([p], fs, img);
    assert [p][..0] == [];
  }

  /**
   * `ImageProcessQueue`. The queue is the caller's list itself when one is
   * given (later `add`s show through it), and a new empty list otherwise.
   */
  class ImageProcessQueue<I> {
    const queue: ProcessorList<I>

    constructor (processors: Option<ProcessorList<I>> := None)
      ensures processors.Some? ==> queue == processors.value
      ensures processors.None? ==> fresh(queue) && queue.items == []
    {
      if processors.None? {
        queue := new ProcessorList([]);
      } else {
        queue := processors.value;
      }
    }

    /** `add`: the processor goes to the end of the queue. */
    method Add(processor: I -> I)
      modifies queue`items
      ensures queue.items == old(queue.items) + [processor]
    {
      queue.items := queue.items + [processor];
    }

    /**
     * `apply`: every image goes through the whole queue in order, one
     * `process` call per image and processor; the list handed back is the
     * one handed in, and the processed images (`outputs`) are not kept.
     */
    method Apply(imgs: seq<I>) returns (result: seq<I>, ghost outputs: seq<I>, ghost calls: nat)
      ensures result == imgs
      ensures |outputs| == |imgs|
      ensures forall k :: 0 <= k < |imgs| ==> outputs[k] == Chain(queue.items, imgs[k])
      ensures calls == |imgs| * |queue.items|
    {
      outputs := [];
      calls := 0;
      var i := 0;
      while i < |imgs|
        invariant 0 <= i <= |imgs|
        invariant |outputs| == i
        invariant forall k :: 0 <= k < i ==> outputs[k] == Chain(queue.items, imgs[k])
        invariant calls == i * |queue.items|
      {
        var img := imgs[i];
        var j := 0;
        while j < |queue.items|
          invariant 0 <= j <= |queue.items|
          invariant img == Chain(queue.items[..j], imgs[i])
          invariant calls == i * |queue.items| + j
        {
          assert queue.items[..j + 1][..j] == queue.items[..j];
          img := queue.items[j](img);
          calls := calls + 1;
          j := j + 1;
        }
        assert queue.items[..j] == queue.items;
        outputs := outputs + [img];
        i := i + 1;
      }
      result := imgs;
    }
  }
}

/** BaseDataLoader: the dataset a concrete dataloader holds, and the batches it hands out. */
module DataLoader {
  import opened Wrappers
  import opened Batching

  /** `batch_fn` applied to every batch in order, or the error splitting raised. */
  ghost function MapBatches<T, U>(batchFn: seq<T> -> U, split: Result<seq<seq<T>>, SplitError>)
    : Result<seq<U>, SplitError>
  {
    match split
    case Failure(e) => Failure(e)
    case Success(batches) => Success(seq(|batches|, i requires 0 <= i < |batches| => batchFn(batches[i])))
  }

  /** The ancestor of every dataloader: `dataset` is set once by the constructor. */
  class BaseDataLoader<T> {
    var dataset: seq<T>

    constructor (dataset: seq<T>)
      ensures this.dataset == dataset
    {
      this.dataset := dataset;
    }

    /** The dataset get_data batches: what `process_fn` returned when one is given,
        `self.dataset` otherwise. */
    function Source(processed: Option<seq<T>>): (d: seq<T>)
      reads this
      ensures processed.Some? ==> d == processed.value
      ensures processed.None? ==> d == dataset
    {
      if processed.Some? then processed.value else dataset
    }

    /** Default conv_process_fn: the loader's dataset, unchanged. */
    function ConvProcessFn(): (d: seq<T>)
      reads this
      ensures d == dataset
    {
      dataset
    }

    /** Default rec_process_fn: the loader's dataset, unchanged. */
    function RecProcessFn(): (d: seq<T>)
      reads this
      ensures d == dataset
    {
      dataset
    }

    /** Default guide_process_fn: the loader's dataset, unchanged. */
    function GuideProcessFn(): (d: seq<T>)
      reads this
      ensures d == dataset
    {
      dataset
    }

    /** get_data(batch_fn, batch_size, shuffle=True, process_fn=None): `processed` is what
        `process_fn` returns (None when no `process_fn` is given) and `shuffled` the list
        `random.shuffle` produces; the generated values are returned as one list. */
    method GetData<U>(batchFn: seq<T> -> U, batchSize: int, shuffle: bool,
                      processed: Option<seq<T>>, shuffled: seq<nat>)
      returns (r: Result<seq<U>, SplitError>)
      requires shuffle ==> IsPermutation(shuffled, |Source(processed)|)
      ensures r.Failure? <==> batchSize == 0
      ensures r == MapBatches(batchFn, Split(Source(processed), batchSize, shuffle, shuffled))
    {
      var data := dataset;
      if processed.Some? {
        data := processed.value;
      }
      var split := BatchSplit(data, batchSize, shuffle, shuffled);
      if split.Failure? {
        return Failure(split.error);
      }
      var batches := split.value;
      var out: seq<U> := [];
      for i := 0 to |batches|
        invariant |out| == i
        invariant forall k :: 0 <= k < i ==> out[k] == batchFn(batches[k])
      {
        out := out + [batchFn(batches[i])];
      }
      assert out == seq(|batches|, i requires 0 <= i < |batches| => batchFn(batches[i]));
      return Success(out);
    }

    /** get_conv_data(batch_size, shuffle=True): get_data with the default conv_process_fn. */
    method GetConvData<U>(batchFn: seq<T> -> U, batchSize: int, shuffle: bool, shuffled: seq<nat>)
      returns (r: Result<seq<U>, SplitError>)
      requires shuffle ==> IsPermutation(shuffled, |dataset|)
      ensures r == MapBatches(batchFn, Split(dataset, batchSize, shuffle, shuffled))
    {
      r := GetData(batchFn, batchSize, shuffle, Some(ConvProcessFn()), shuffled);
    }

    /** get_rec_data(batch_size, shuffle=True): get_data with the default rec_process_fn. */
    method GetRecData<U>(batchFn: seq<T> -> U, batchSize: int, shuffle: bool, shuffled: seq<nat>)
      returns (r: Result<seq<U>, SplitError>)
      requires shuffle ==> IsPermutation(shuffled, |dataset|)
      ensures r == MapBatches(batchFn, Split(dataset, batchSize, shuffle, shuffled))
    {
      r := GetData(batchFn, batchSize, shuffle, Some(RecProcessFn()), shuffled);
    }

    /** get_guide_data(batch_size, shuffle=True): get_data with the default guide_process_fn. */
    method GetGuideData<U>(batchFn: seq<T> -> U, batchSize: int, shuffle: bool, shuffled: seq<nat>)
      returns (r: Result<seq<U>, SplitError>)
      requires shuffle ==> IsPermutation(shuffled, |dataset|)
      ensures r == MapBatches(batchFn, Split(dataset, batchSize, shuffle, shuffled))
    {
      r := GetData(batchFn, batchSize, shuffle, Some(GuideProcessFn()), shuffled);
    }
  }
}

# CRSLab batching utilities in Dafny

This project models the batching and sequence utilities of CRSLab's
`crslab/data/dataloader/base_dataloader.py`, the part of the toolkit that turns a
dataset of token-id lists into mini-batches:

- `padded_tensor` builds an `n x t` matrix from uneven integer lists. The matrix is
  filled with `pad_idx` and each item is copied into its row, at the start (right
  padding) or at the end (left padding). Module `Padding`. The method
  `PaddedTensor` works on an `array2<int>` in place, as the source does. It is proved
  equal, cell by cell, to the specification function `Padded`, and the shape and
  placement properties are proved about `Padded`. The docstring of `padded_tensor`
  promises a `(padded, lengths)` tuple, but the code returns only the matrix, so the
  model returns only the matrix.
- `batch_split` cuts a dataset into `ceil(len / batch_size)` consecutive slices of an
  index list, which may be shuffled first. Module `Batching`. The method
  `BatchSplit` follows the source's loop over `start_idx`. It is proved equal to
  `Split`, the chunks of the dataset gathered in index order. Lemmas prove the batch
  count, the batch sizes, the order when the list is not shuffled, and that the
  elements are preserved when it is.
- `truncate` keeps a prefix or a suffix of at most `max_length` elements. Module
  `Truncation`, with Python's slice semantics written out.
- `merge_utt` flattens a conversation into one token list. Module `Utterances`.
  `Batching` uses the same function to merge batches back together.
- `BaseDataLoader.get_data` applies `batch_fn` to every batch `batch_split`
  produces, from the dataset or from what `process_fn` returns. The
  `get_conv_data`, `get_rec_data` and `get_guide_data` wrappers use the default
  `*_process_fn`, which return the dataset. Module `DataLoader`, class
  `BaseDataLoader`.

The Python code raises in three places. Each is modelled as a `Failure` value, not
as a precondition:

- `padded_tensor` on an empty `items` raises, because `max([])` or `items[0]` fails.
  This is `EmptyItems`.
- `padded_tensor` raises when an item is longer than the width
  `t = max(max_len, 1)`, because the row slice is narrower than the item. Without
  `max_len` the width is the longest item's length (at least 1), so no item is too long. This is `ItemTooLong(row)`, for the first such row.
- `batch_split` with `batch_size == 0` raises a division by zero. This is
  `ZeroBatchSize`.

A negative `batch_size` gives `ceil(...) <= 0`, so the source yields no batches,
and the model does the same.

Randomness is a parameter. `shuffled` stands for the list that `random.shuffle`
leaves in `idx_list`. The only thing assumed about it is that it is a permutation of
`range(len(dataset))`.

## Model

| member | source | states |
|---|---|---|
| `Padding.MaxLength` | crslab/data/dataloader/base_dataloader.py:47-49 | `max(lens)` is at least every item's length and equals the length of some item |
| `Padding.Width` | crslab/data/dataloader/base_dataloader.py:45-51 | the time dimension is at least 1; with `max_len` it is `max(max_len, 1)`; without it, no item is longer and, above 1, some item has exactly that length |
| `Padding.FirstTooLong` | crslab/data/dataloader/base_dataloader.py:60-72 | finds the first row whose item does not fit in `t` columns, or reports that every item fits |
| `Padding.PadRow` | crslab/data/dataloader/base_dataloader.py:58-72 | a row has `t` cells; with right padding cell `j` is `item[j]` below `len(item)` and `pad_idx` from there on; with left padding it is `pad_idx` below `t - len(item)` and the item from there on |
| `Padding.Padded` | crslab/data/dataloader/base_dataloader.py:18-74 | fails exactly when `items` is empty (`EmptyItems`) or some item is longer than the width (`ItemTooLong` of the first such row); otherwise has `len(items)` rows of the width; with right padding, cell `[i][j]` is `items[i][j]` for `j < len` and `pad_idx` after; with left padding, `pad_idx` before `t - len` and the item after |
| `Padding.PaddedEmptyRow` | crslab/data/dataloader/base_dataloader.py:60-63 | a row whose item is empty is entirely `pad_idx` |
| `Padding.UnpadPadRow` | crslab/data/dataloader/base_dataloader.py:67-72 | stripping the padding from a padded row gives back the item |
| `Padding.UnpadPadded` | crslab/data/dataloader/base_dataloader.py:67-72 | stripping the padding from row `i` gives back `items[i]`, for both padding sides |
| `Padding.Fill` | crslab/data/dataloader/base_dataloader.py:58 | `fill_(pad_idx)` sets every cell of the matrix to `pad_idx` |
| `Padding.WriteRow` | crslab/data/dataloader/base_dataloader.py:67-72 | the row slice assignment writes the item at the given column and leaves every other cell unchanged |
| `Padding.PlaceItem` | crslab/data/dataloader/base_dataloader.py:67-72 | placing an item into an all-`pad_idx` row, at the beginning or at the end, makes that row its padded row and leaves the other rows unchanged |
| `Padding.CopyItems` | crslab/data/dataloader/base_dataloader.py:60-72 | the row loop either copies every item into its row, or stops at the first item wider than the matrix, after every earlier item fitted |
| `Padding.PaddedTensor` | crslab/data/dataloader/base_dataloader.py:18-74 | returns the error `Padded` reports, or a fresh `len(items) x t` matrix whose every cell equals `Padded`'s |
| `Batching.Range` | crslab/data/dataloader/base_dataloader.py:89 | `list(range(n))`: `n` entries, entry `i` equal to `i` |
| `Batching.Gather` | crslab/data/dataloader/base_dataloader.py:94 | one dataset element per index, `dataset[idx[k]]` at position `k`, so every gathered element comes from the dataset |
| `Batching.Split` | crslab/data/dataloader/base_dataloader.py:87-94 | the batches `batch_split` yields, collected: fails exactly on a zero batch size, is empty for a negative one, and otherwise merges back to the dataset visited in index order |
| `Batching.CeilDiv` | crslab/data/dataloader/base_dataloader.py:88 | the result is the ceiling of `n / d`: `(q - 1) * d < n <= q * d` for a positive divisor, and the mirrored bounds, with `q <= 0`, for a negative one |
| `Batching.CeilDivUnique` | crslab/data/dataloader/base_dataloader.py:88 | a positive divisor admits only one integer with the ceiling's bounds |
| `Batching.ChunksMerge` | crslab/data/dataloader/base_dataloader.py:92-94 | the consecutive slices merged back together give the sliced sequence |
| `Batching.ChunksCount` | crslab/data/dataloader/base_dataloader.py:88-93 | there are `ceil(len / batch_size)` slices |
| `Batching.ChunksSizes` | crslab/data/dataloader/base_dataloader.py:92-93 | every slice but the last holds `batch_size` elements, and the last holds between 1 and `batch_size` |
| `Batching.ChunksAt` | crslab/data/dataloader/base_dataloader.py:93 | slice `b` is `s[b * batch_size:(b + 1) * batch_size]`, with the end clamped to the length |
| `Batching.GatherRange` | crslab/data/dataloader/base_dataloader.py:89-94 | gathering the dataset by `range(len)` gives the dataset itself |
| `Batching.RangeOnce` | crslab/data/dataloader/base_dataloader.py:89 | every index below `n` occurs once in `range(n)`, and no other value occurs |
| `Batching.PermutationVisitsOnce` | crslab/data/dataloader/base_dataloader.py:89-91 | a shuffled index list holds every dataset index exactly once |
| `Batching.GatherPermutation` | crslab/data/dataloader/base_dataloader.py:89-94 | gathering the dataset in a shuffled order keeps every element with its multiplicity |
| `Batching.BatchSplit` | crslab/data/dataloader/base_dataloader.py:87-94 | fails on a zero batch size, yields nothing for a negative one, and otherwise returns exactly the slices of the dataset gathered in index order (`Split`) |
| `Batching.SplitShape` | crslab/data/dataloader/base_dataloader.py:87-94 | `ceil(len / batch_size)` batches; all but the last hold `batch_size` elements and the last holds between 1 and `batch_size` |
| `Batching.SplitUnshuffled` | crslab/data/dataloader/base_dataloader.py:87-94 | without shuffle, the batches merged together are the dataset in its original order |
| `Batching.SplitShuffled` | crslab/data/dataloader/base_dataloader.py:87-94 | with shuffle, the batches merged together are the dataset visited in the shuffled order, so every element occurs as often as in the dataset |
| `Truncation.SliceBound` | crslab/data/dataloader/base_dataloader.py:103-106 | a Python slice bound counts from the end when negative and is clamped to `0..len` |
| `Truncation.TruncateAsWritten` | crslab/data/dataloader/base_dataloader.py:97-106 | the code as written returns a prefix of `vec` when `truncate_tail` is set and a suffix otherwise, for any integer `max_length` |
| `Truncation.Truncate` | crslab/data/dataloader/base_dataloader.py:97-106 | returns `vec` when `max_length` is None or `len(vec) <= max_length`; otherwise the result has length `max_length` and is the prefix when `truncate_tail` is set, the suffix when it is not |
| `Truncation.TruncateIdempotent` | crslab/data/dataloader/base_dataloader.py:97-106 | truncating twice with the same arguments is truncating once |
| `Truncation.TruncateAsWrittenAgrees` | crslab/data/dataloader/base_dataloader.py:103-106 | the code as written equals `Truncate` for every positive `max_length`, and for 0 with `truncate_tail` |
| `Truncation.TruncateAsWrittenIdempotent` | crslab/data/dataloader/base_dataloader.py:97-106 | for every non-negative `max_length` the code as written is idempotent |
| `Truncation.TruncateNegativeShrinks` | crslab/data/dataloader/base_dataloader.py:103-104 | with `max_length = -1` and `truncate_tail`, `[1, 2, 3]` becomes `[1, 2]` and then `[1]`: the code as written is not idempotent for a negative bound |
| `Truncation.TruncateZeroFromHead` | crslab/data/dataloader/base_dataloader.py:105-106 | with `max_length == 0` and no `truncate_tail`, the code as written keeps the whole non-empty `vec`, while `Truncate` gives the empty list |
| `Utterances.MergeUtt` | crslab/data/dataloader/base_dataloader.py:109-110 | `merge_utt`: the tokens of every utterance in order; the merged list is as long as the sum of the utterance lengths |
| `Utterances.MergeUttAppend` | crslab/data/dataloader/base_dataloader.py:109-110 | merging distributes over the concatenation of conversations |
| `Utterances.MergeUttIndex` | crslab/data/dataloader/base_dataloader.py:109-110 | token `j` of utterance `i` is at offset (lengths of the earlier utterances) + `j` of the merged list |
| `Utterances.MergeUttMembership` | crslab/data/dataloader/base_dataloader.py:109-110 | a token is in the merged list exactly when it is in some utterance |
| `DataLoader.BaseDataLoader.constructor` | crslab/data/dataloader/base_dataloader.py:136-138 | the loader holds the given dataset |
| `DataLoader.BaseDataLoader.Source` | crslab/data/dataloader/base_dataloader.py:141-143 | the dataset `get_data` batches: what `process_fn` returned when one is given, the loader's dataset otherwise |
| `DataLoader.BaseDataLoader.ConvProcessFn` | crslab/data/dataloader/base_dataloader.py:157-158 | the default `conv_process_fn` returns the loader's dataset unchanged |
| `DataLoader.BaseDataLoader.RecProcessFn` | crslab/data/dataloader/base_dataloader.py:163-164 | the default `rec_process_fn` returns the loader's dataset unchanged |
| `DataLoader.BaseDataLoader.GuideProcessFn` | crslab/data/dataloader/base_dataloader.py:169-170 | the default `guide_process_fn` returns the loader's dataset unchanged |
| `DataLoader.BaseDataLoader.GetData` | crslab/data/dataloader/base_dataloader.py:140-146 | fails exactly on a zero batch size; otherwise returns `batch_fn` of every batch of `batch_split`, in order, over what `process_fn` returned or else the loader's dataset |
| `DataLoader.BaseDataLoader.GetConvData` | crslab/data/dataloader/base_dataloader.py:148-149 | with the default `conv_process_fn` (lines 157-158), the batches are those of the loader's own dataset |
| `DataLoader.BaseDataLoader.GetRecData` | crslab/data/dataloader/base_dataloader.py:151-152 | with the default `rec_process_fn` (lines 163-164), the batches are those of the loader's own dataset |
| `DataLoader.BaseDataLoader.GetGuideData` | crslab/data/dataloader/base_dataloader.py:154-155 | with the default `guide_process_fn` (lines 169-170), the batches are those of the loader's own dataset |

## Left out

- `get_onehot_label` (lines 77-84) is not modelled. Its values are floating-point fractions placed into torch tensors.
- The `conv_batchify`, `rec_batchify` and `guide_batchify` methods only raise `NotImplementedError`. A concrete dataloader supplies them, so `batch_fn` is a parameter. It is modelled as a pure function, so any side effects of a real `batch_fn` are not captured.
- Python default arguments are not modelled; every parameter is explicit. The defaults
  are `pad_idx=0`, `right_padded=True` and `max_len=None` for `padded_tensor`
  (lines 20-22), `truncate_tail=True` for `truncate` (line 97), `shuffle=False` for
  `batch_split` (line 87), and `shuffle=True` and `process_fn=None` for `get_data`
  (line 140). The `get_conv_data`, `get_rec_data` and `get_guide_data` wrappers
  also default to `shuffle=True` (lines 148-154).
- `random.shuffle` is not modelled as a generator of random numbers. Its result is a parameter that must be a permutation of `range(len(dataset))`.
- `process_fn` is modelled by the value it returns. The arguments passed to it are not modelled.
- The `opt` configuration stored by the constructor is not modelled. None of the modelled code reads it.
- Torch details are not modelled: device placement (CUDA), `items[0].new(...)` versus `LongTensor`, tensor inputs, and the 64-bit range of `torch.long`. Items are sequences of unbounded integers.
- `batch_split`, `get_data` and the `get_*_data` wrappers are generators. The model returns all yielded values as one list. Laziness is not modelled: the source raises on a zero batch size only when iteration starts, and calls `batch_fn` one batch at a time.
- BatchSplit: the source computes `ceil(len(dataset) / batch_size)` in floating point, and the model uses the exact integer ceiling. The two differ only for astronomically large operands: a length beyond 2^53, where
  the float division rounds, or a `batch_size` so far above the length (about
  `len * 2^1075`) that the quotient underflows to 0 and the source yields no batch
  where the model yields one.
- PaddedTensor: when an item is too long the source raises mid-loop, after some rows have been written. The model returns the error, and the partly written matrix is unreachable, as it is after the exception.
- Truncate: takes `max_length` as a natural number. For a negative `max_length`, Python's negative slices give results that are neither the prefix nor the suffix of the intended length. `TruncateAsWritten` models that case; the corrected function does not.
  In that case the code as written is not idempotent either (`TruncateNegativeShrinks`).
- `crslab/evaluator/conv_evaluator.py`, `crslab/evaluator/rec_evaluator.py` and `crslab/model/recommendation/bert/bert.py` are not part of this model. They delegate their work to metric classes, fasttext and transformers, which lie outside the modelled code.

## Findings

| source | as written | input that shows it | evidently intended | confidence | as-written member | corrected member |
|---|---|---|---|---|---|---|
| crslab/data/dataloader/base_dataloader.py:105-106 | with `truncate_tail=False` the code returns `vec[-max_length:]`; for `max_length == 0` that is `vec[-0:] == vec[0:]`, the whole list | `truncate([1], 0, truncate_tail=False)` returns `[1]`, of length 1 > 0 | the last `max_length` elements, here `[]`, as `truncate([1], 0)` from the other side already gives `[]` | medium, not executed | `Truncation.TruncateZeroFromHead` (about `Truncation.TruncateAsWritten`) | `Truncation.Truncate` |

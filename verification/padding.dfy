/** padded_tensor: an `n x t` matrix built from uneven integer lists. */
module Padding {
  import opened Wrappers

  /** Why padded_tensor raises instead of returning a matrix. */
  datatype PadError =
    | EmptyItems              // `max(lens)` or `items[0]` on an empty list of items
    | ItemTooLong(row: nat)   // the row slice is narrower than the item assigned to it

  /** `max(lens)`: the length of the longest item. */
  function MaxLength(items: seq<seq<int>>): (m: nat)
    requires |items| > 0
    ensures forall i :: 0 <= i < |items| ==> |items[i]| <= m
    ensures exists i :: 0 <= i < |items| && |items[i]| == m
  {
    if |items| == 1 then |items[0]|
    else
      var rest := MaxLength(items[1..]);
      assert forall i :: 1 <= i < |items| ==> items[i] == items[1..][i - 1];
      if rest <= |items[0]| then |items[0]| else rest
  }

  /** The time dimension `t` of the output: `max_len` when given, else the longest
      item, and never below 1. */
  function Width(items: seq<seq<int>>, maxLen: Option<int>): (t: nat)
    requires |items| > 0
    ensures t >= 1
    ensures maxLen.Some? ==> t >= maxLen.value && (t == maxLen.value || t == 1)
    ensures maxLen.None? ==> forall i :: 0 <= i < |items| ==> |items[i]| <= t
    ensures maxLen.None? && t > 1 ==> exists i :: 0 <= i < |items| && |items[i]| == t
  {
    var t := if maxLen.None? then MaxLength(items) else maxLen.value;
    if t < 1 then 1 else t
  }

  /** The first row whose item does not fit in `t` columns, if any. */
  function FirstTooLong(items: seq<seq<int>>, t: int): (k: Option<nat>)
    ensures k.None? <==> forall i :: 0 <= i < |items| ==> |items[i]| <= t
    ensures k.Some? ==> k.value < |items| && |items[k.value]| > t
    ensures k.Some? ==> forall i :: 0 <= i < k.value ==> |items[i]| <= t
  {
    if |items| == 0 then None
    else if |items[0]| > t then Some(0)
    else
      assert forall i :: 1 <= i < |items| ==> items[i] == items[1..][i - 1];
      match FirstTooLong(items[1..], t)
      case None => None
      case Some(k) => Some(k + 1)
  }

  /** One row of the output: `pad_idx` everywhere, then `item` written at the start
      (right padding) or at the end (left padding). */
  function PadRow(item: seq<int>, t: nat, padIdx: int, rightPadded: bool): (row: seq<int>)
    requires |item| <= t
    ensures |row| == t
    ensures rightPadded ==> forall j :: 0 <= j < t ==> row[j] == if j < |item| then item[j] else padIdx
    ensures !rightPadded ==> forall j :: 0 <= j < t ==>
      row[j] == if j < t - |item| then padIdx else item[j - (t - |item|)]
  {
    if rightPadded then item + seq(t - |item|, _ => padIdx)
    else seq(t - |item|, _ => padIdx) + item
  }

  /** The matrix padded_tensor returns, row by row, or the error it raises. */
  function Padded(items: seq<seq<int>>, padIdx: int, rightPadded: bool, maxLen: Option<int>)
    : (r: Result<seq<seq<int>>, PadError>)
    ensures r.Failure? <==> |items| == 0 || exists i :: 0 <= i < |items| && |items[i]| > Width(items, maxLen)
    ensures |items| == 0 ==> r == Failure(EmptyItems)
    ensures r.Failure? && |items| > 0 ==>
      && r.error.ItemTooLong?
      && r.error.row < |items|
      && |items[r.error.row]| > Width(items, maxLen)
      && forall i :: 0 <= i < r.error.row ==> |items[i]| <= Width(items, maxLen)
    ensures r.Success? ==> |r.value| == |items|
    ensures r.Success? ==> forall i :: 0 <= i < |items| ==> |r.value[i]| == Width(items, maxLen)
    ensures r.Success? && rightPadded ==>
      forall i, j :: 0 <= i < |items| && 0 <= j < Width(items, maxLen) ==>
        r.value[i][j] == if j < |items[i]| then items[i][j] else padIdx
    ensures r.Success? && !rightPadded ==>
      forall i, j :: 0 <= i < |items| && 0 <= j < Width(items, maxLen) ==>
        var start := Width(items, maxLen) - |items[i]|;
        r.value[i][j] == if j < start then padIdx else items[i][j - start]
  {
    if |items| == 0 then Failure(EmptyItems)
    else
      var t := Width(items, maxLen);
      match FirstTooLong(items, t)
      case Some(i) => Failure(ItemTooLong(i))
      case None => Success(seq(|items|, i requires 0 <= i < |items| => PadRow(items[i], t, padIdx, rightPadded)))
  }

  /** A row whose item is empty holds only `pad_idx`. */
  lemma PaddedEmptyRow(items: seq<seq<int>>, padIdx: int, rightPadded: bool, maxLen: Option<int>, i: nat)
    requires Padded(items, padIdx, rightPadded, maxLen).Success?
    requires i < |items| && |items[i]| == 0
    ensures forall j :: 0 <= j < Width(items, maxLen) ==> Padded(items, padIdx, rightPadded, maxLen).value[i][j] == padIdx
  {
  }

  /** Strips the padding from a row of width `|row|` that holds an item of length `len`. */
  function Unpad(row: seq<int>, len: nat, rightPadded: bool): seq<int>
    requires len <= |row|
  {
    if rightPadded then row[..len] else row[|row| - len..]
  }

  /** Stripping the padding from a padded row gives back its item. */
  lemma UnpadPadRow(item: seq<int>, t: nat, padIdx: int, rightPadded: bool)
    requires |item| <= t
    ensures Unpad(PadRow(item, t, padIdx, rightPadded), |item|, rightPadded) == item
  {
    var row := PadRow(item, t, padIdx, rightPadded);
    if rightPadded {
      assert row == item + seq(t - |item|, _ => padIdx);
    } else {
      assert row == seq(t - |item|, _ => padIdx) + item;
    }
  }

  /** When every item fits, row `i` of Padded is `items[i]` padded to the width. */
  lemma PaddedRows(items: seq<seq<int>>, padIdx: int, rightPadded: bool, maxLen: Option<int>)
    requires |items| > 0
    requires forall i :: 0 <= i < |items| ==> |items[i]| <= Width(items, maxLen)
    ensures Padded(items, padIdx, rightPadded, maxLen).Success?
    ensures forall i :: 0 <= i < |items| ==>
      Padded(items, padIdx, rightPadded, maxLen).value[i] == PadRow(items[i], Width(items, maxLen), padIdx, rightPadded)
  {
    assert FirstTooLong(items, Width(items, maxLen)).None?;
  }

  /** The first item longer than the width is the row Padded reports. */
  lemma PaddedFirstTooLong(items: seq<seq<int>>, padIdx: int, rightPadded: bool, maxLen: Option<int>, i: nat)
    requires i < |items|
    requires forall k :: 0 <= k < i ==> |items[k]| <= Width(items, maxLen)
    requires |items[i]| > Width(items, maxLen)
    ensures Padded(items, padIdx, rightPadded, maxLen) == Failure(ItemTooLong(i))
  {
    var k := FirstTooLong(items, Width(items, maxLen));
    assert k.Some?;
    assert !(k.value < i) && !(i < k.value);
  }

  /** Padding is undone by stripping the padding: every item can be read back from its row. */
  lemma UnpadPadded(items: seq<seq<int>>, padIdx: int, rightPadded: bool, maxLen: Option<int>, i: nat)
    requires Padded(items, padIdx, rightPadded, maxLen).Success?
    requires i < |items|
    ensures |items[i]| <= |Padded(items, padIdx, rightPadded, maxLen).value[i]|
    ensures Unpad(Padded(items, padIdx, rightPadded, maxLen).value[i], |items[i]|, rightPadded) == items[i]
  {
    PaddedRows(items, padIdx, rightPadded, maxLen);
    UnpadPadRow(items[i], Width(items, maxLen), padIdx, rightPadded);
  }

  /** `output.fill_(pad_idx)`: every cell of `output` becomes `padIdx`. */
  method Fill(output: array2<int>, padIdx: int)
    modifies output
    ensures forall r, c :: 0 <= r < output.Length0 && 0 <= c < output.Length1 ==> output[r, c] == padIdx
  {
    for i := 0 to output.Length0
      invariant forall r, c :: 0 <= r < i && 0 <= c < output.Length1 ==> output[r, c] == padIdx
    {
      for j := 0 to output.Length1
        invariant forall r, c :: 0 <= r < i && 0 <= c < output.Length1 ==> output[r, c] == padIdx
        invariant forall c :: 0 <= c < j ==> output[i, c] == padIdx
      {
        output[i, j] := padIdx;
      }
    }
  }

  /** `output[i, start:start + len(item)] = item`; every other cell keeps its value. */
  method WriteRow(output: array2<int>, i: nat, start: nat, item: seq<int>)
    requires i < output.Length0 && start + |item| <= output.Length1
    modifies output
    ensures forall c :: 0 <= c < |item| ==> output[i, start + c] == item[c]
    ensures forall r, c :: 0 <= r < output.Length0 && 0 <= c < output.Length1 && (r != i || c < start || start + |item| <= c) ==>
      output[r, c] == old(output[r, c])
  {
    for k := 0 to |item|
      invariant forall c :: 0 <= c < k ==> output[i, start + c] == item[c]
      invariant forall r, c :: 0 <= r < output.Length0 && 0 <= c < output.Length1 && (r != i || c < start || start + k <= c) ==>
        output[r, c] == old(output[r, c])
    {
      output[i, start + k] := item[k];
    }
  }

  /** Places a non-empty item into row `i`, which holds only `padIdx`: at the beginning
      with right padding, at the end with left padding. */
  method PlaceItem(output: array2<int>, i: nat, item: seq<int>, padIdx: int, rightPadded: bool)
    requires i < output.Length0 && |item| <= output.Length1
    requires forall c :: 0 <= c < output.Length1 ==> output[i, c] == padIdx
    modifies output
    ensures forall c :: 0 <= c < output.Length1 ==>
      output[i, c] == PadRow(item, output.Length1, padIdx, rightPadded)[c]
    ensures forall r, c :: 0 <= r < output.Length0 && 0 <= c < output.Length1 && r != i ==>
      output[r, c] == old(output[r, c])
  {
    var t := output.Length1;
    if rightPadded {
      WriteRow(output, i, 0, item);
    } else {
      WriteRow(output, i, t - |item|, item);
      forall c | t - |item| <= c < t
        ensures output[i, c] == item[c - (t - |item|)]
      {
        assert output[i, t - |item| + (c - (t - |item|))] == item[c - (t - |item|)];
      }
    }
  }

  /** The loop over `enumerate(zip(items, lens))`: copies every item into its row of an
      all-`padIdx` matrix, or stops at the first item wider than the matrix. */
  method CopyItems(output: array2<int>, items: seq<seq<int>>, padIdx: int, rightPadded: bool)
    returns (tooLong: Option<nat>)
    requires output.Length0 == |items|
    requires forall k, c :: 0 <= k < output.Length0 && 0 <= c < output.Length1 ==> output[k, c] == padIdx
    modifies output
    ensures tooLong.None? ==> forall k :: 0 <= k < |items| ==> |items[k]| <= output.Length1
    ensures tooLong.None? ==> forall k, c :: 0 <= k < |items| && 0 <= c < output.Length1 ==>
      output[k, c] == PadRow(items[k], output.Length1, padIdx, rightPadded)[c]
    ensures tooLong.Some? ==> tooLong.value < |items| && |items[tooLong.value]| > output.Length1
    ensures tooLong.Some? ==> forall k :: 0 <= k < tooLong.value ==> |items[k]| <= output.Length1
  {
    var n, t := output.Length0, output.Length1;
    for i := 0 to n
      invariant forall k :: 0 <= k < i ==> |items[k]| <= t
      invariant forall k, c :: 0 <= k < i && 0 <= c < t ==> output[k, c] == PadRow(items[k], t, padIdx, rightPadded)[c]
      invariant forall k, c :: i <= k < n && 0 <= c < t ==> output[k, c] == padIdx
    {
      var length := |items[i]|;
      if length == 0 {
        continue;
      }
      if length > t {
        return Some(i);
      }
      PlaceItem(output, i, items[i], padIdx, rightPadded);
    }
    return None;
  }

  /** padded_tensor(items, pad_idx=0, right_padded=True, max_len=None): a fresh
      `|items| x t` matrix whose cells are those of Padded, or the error Padded reports.
      Only the matrix is returned, as the code does; the `(padded, lengths)` tuple its
      docstring mentions is never built. */
  method PaddedTensor(items: seq<seq<int>>, padIdx: int, rightPadded: bool, maxLen: Option<int>)
    returns (r: Result<array2<int>, PadError>)
    ensures Padded(items, padIdx, rightPadded, maxLen).Failure? ==>
      r == Failure(Padded(items, padIdx, rightPadded, maxLen).error)
    ensures Padded(items, padIdx, rightPadded, maxLen).Success? ==>
      && r.Success?
      && fresh(r.value)
      && r.value.Length0 == |items|
      && r.value.Length1 == Width(items, maxLen)
      && forall i, j :: 0 <= i < r.value.Length0 && 0 <= j < r.value.Length1 ==>
           r.value[i, j] == Padded(items, padIdx, rightPadded, maxLen).value[i][j]
  {
    var n := |items|;
    if n == 0 {
      return Failure(EmptyItems);
    }
    var t: int := if maxLen.None? then MaxLength(items) else maxLen.value;
    t := if t < 1 then 1 else t;
    var output := new int[n, t];
    Fill(output, padIdx);
    var tooLong := CopyItems(output, items, padIdx, rightPadded);
    if tooLong.Some? {
      PaddedFirstTooLong(items, padIdx, rightPadded, maxLen, tooLong.value);
      return Failure(ItemTooLong(tooLong.value));
    }
    PaddedRows(items, padIdx, rightPadded, maxLen);
    return Success(output);
  }
}

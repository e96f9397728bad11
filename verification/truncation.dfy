/** truncate: keeping a prefix or a suffix of at most `max_length` elements. */
module Truncation {
  import opened Wrappers

  /** Python's normalisation of a slice bound `i` against a sequence of length `n`:
      a negative bound counts from the end, and out-of-range bounds are clamped. */
  function SliceBound(i: int, n: nat): (k: nat)
    ensures k <= n
    ensures 0 <= i <= n ==> k == i
    ensures i < 0 && 0 <= n + i ==> k == n + i
    ensures n + i < 0 ==> k == 0
    ensures n < i ==> k == n
  {
    if i < 0 then (if i + n < 0 then 0 else i + n)
    else if i > n then n else i
  }

  /** truncate(vec, max_length, truncate_tail=True) exactly as the code computes it, including
      Python's reading of `vec[:max_length]` and `vec[-max_length:]` for any integer. */
  function TruncateAsWritten<T>(vec: seq<T>, maxLength: Option<int>, truncateTail: bool): (r: seq<T>)
    ensures |r| <= |vec|
    ensures truncateTail ==> r == vec[..|r|]
    ensures !truncateTail ==> r == vec[|vec| - |r|..]
  {
    if maxLength.None? then vec
    else if |vec| <= maxLength.value then vec
    else if truncateTail then vec[..SliceBound(maxLength.value, |vec|)]
    else vec[SliceBound(-maxLength.value, |vec|)..]
  }

  /** truncate with the behaviour its callers rely on: the result keeps at most
      `max_length` elements, the first ones when `truncate_tail` is set and the
      last ones otherwise. */
  function Truncate<T>(vec: seq<T>, maxLength: Option<nat>, truncateTail: bool): (r: seq<T>)
    ensures maxLength.None? ==> r == vec
    ensures maxLength.Some? && |vec| <= maxLength.value ==> r == vec
    ensures maxLength.Some? ==> |r| == if |vec| <= maxLength.value then |vec| else maxLength.value
    ensures truncateTail ==> r == vec[..|r|]
    ensures !truncateTail ==> r == vec[|vec| - |r|..]
  {
    if maxLength.None? then vec
    else if |vec| <= maxLength.value then vec
    else if truncateTail then vec[..maxLength.value]
    else vec[|vec| - maxLength.value..]
  }

  /** Truncating twice with the same arguments is truncating once. */
  lemma TruncateIdempotent<T>(vec: seq<T>, maxLength: Option<nat>, truncateTail: bool)
    ensures Truncate(Truncate(vec, maxLength, truncateTail), maxLength, truncateTail)
         == Truncate(vec, maxLength, truncateTail)
  {
    var once := Truncate(vec, maxLength, truncateTail);
    if maxLength.Some? {
      assert |once| <= maxLength.value;
    }
  }

  /** For every positive bound the code as written computes the intended truncation. */
  lemma TruncateAsWrittenAgrees<T>(vec: seq<T>, maxLength: Option<nat>, truncateTail: bool)
    requires maxLength.Some? ==> maxLength.value > 0 || truncateTail
    ensures TruncateAsWritten(vec, maxLength, truncateTail) == Truncate(vec, maxLength, truncateTail)
  {
  }

  /** The code as written keeps the whole of a non-empty `vec` for `max_length == 0`
      without `truncate_tail`, because `vec[-0:]` is `vec[0:]`; the intended result is empty. */
  lemma TruncateZeroFromHead<T>(vec: seq<T>)
    requires |vec| > 0
    ensures TruncateAsWritten(vec, Some(0), false) == vec
    ensures |TruncateAsWritten(vec, Some(0), false)| > 0
    ensures Truncate(vec, Some(0), false) == []
  {
  }

  /** For a non-negative bound the code as written is idempotent as well: where it
      departs from `Truncate` (a zero bound without `truncate_tail`) it keeps `vec`. */
  lemma TruncateAsWrittenIdempotent<T>(vec: seq<T>, maxLength: Option<int>, truncateTail: bool)
    requires maxLength.Some? ==> maxLength.value >= 0
    ensures TruncateAsWritten(TruncateAsWritten(vec, maxLength, truncateTail), maxLength, truncateTail)
         == TruncateAsWritten(vec, maxLength, truncateTail)
  {
    if maxLength.Some? && maxLength.value == 0 && !truncateTail {
      assert vec[SliceBound(0, |vec|)..] == vec;
    } else {
      var bound: Option<nat> := if maxLength.Some? then Some(maxLength.value as nat) else None;
      var once := TruncateAsWritten(vec, maxLength, truncateTail);
      TruncateAsWrittenAgrees(vec, bound, truncateTail);
      TruncateAsWrittenAgrees(once, bound, truncateTail);
      TruncateIdempotent(vec, bound, truncateTail);
    }
  }

  /** A negative bound is read as "drop that many from the end", so truncating again
      drops more: `[1, 2, 3]` with `max_length = -1` gives `[1, 2]`, then `[1]`. */
  lemma TruncateNegativeShrinks()
    ensures TruncateAsWritten([1, 2, 3], Some(-1), true) == [1, 2]
    ensures TruncateAsWritten([1, 2], Some(-1), true) == [1]
  {
  }
}

/** merge_utt: flattening a conversation (a list of utterances) into one token list. */
module Utterances {

  /** The tokens of every utterance of `conv`, utterance by utterance, in order;
      as long as all the utterances together. */
  function MergeUtt<T>(conv: seq<seq<T>>): (merged: seq<T>)
    ensures |merged| == TotalLength(conv)
  {
    if conv == [] then [] else conv[0] + MergeUtt(conv[1..])
  }

  /** The sum of the utterance lengths. */
  function TotalLength<T>(conv: seq<seq<T>>): nat
  {
    if conv == [] then 0 else |conv[0]| + TotalLength(conv[1..])
  }

  /** Merging distributes over the concatenation of two conversations. */
  lemma {:induction false} MergeUttAppend<T>(a: seq<seq<T>>, b: seq<seq<T>>)
    ensures MergeUtt(a + b) == MergeUtt(a) + MergeUtt(b)
  {
    if a == [] {
      assert a + b == b;
    } else {
      assert (a + b)[0] == a[0];
      assert (a + b)[1..] == a[1..] + b;
      MergeUttAppend(a[1..], b);
    }
  }

  /** Token `j` of utterance `i` sits at offset (lengths of the utterances before `i`) + `j`. */
  lemma {:induction false} MergeUttIndex<T>(conv: seq<seq<T>>, i: nat, j: nat)
    requires i < |conv| && j < |conv[i]|
    ensures TotalLength(conv[..i]) + j < |MergeUtt(conv)|
    ensures MergeUtt(conv)[TotalLength(conv[..i]) + j] == conv[i][j]
  {
    if i == 0 {
      assert conv[..i] == [];
    } else {
      var rest := conv[1..];
      assert conv[..i][1..] == rest[..i - 1];
      assert rest[i - 1] == conv[i];
      MergeUttIndex(rest, i - 1, j);
      assert TotalLength(conv[..i]) == |conv[0]| + TotalLength(rest[..i - 1]);
    }
  }

  /** A token occurs in the merged list exactly when it occurs in some utterance. */
  lemma {:induction false} MergeUttMembership<T>(conv: seq<seq<T>>, x: T)
    ensures x in MergeUtt(conv) <==> exists i :: 0 <= i < |conv| && x in conv[i]
  {
    if conv != [] {
      MergeUttMembership(conv[1..], x);
      if x in conv[0] {
        assert 0 < |conv| && x in conv[0];
      }
      if exists i :: 1 <= i < |conv| && x in conv[i] {
        var i :| 1 <= i < |conv| && x in conv[i];
        assert x in conv[1..][i - 1];
      }
      if exists i :: 0 <= i < |conv[1..]| && x in conv[1..][i] {
        var i :| 0 <= i < |conv[1..]| && x in conv[1..][i];
        assert x in conv[i + 1];
      }
    }
  }
}

/**
 * The pure building blocks of the stabilisation logic that both the engine
 * and the command-line loop run on every classifier result: the first-max
 * argmax, the "newest equals the minimum" stability gate, Python's `s[-n:]`
 * truncation and the no-repeat sentence append.
 */
module Stability {
  import opened Common

  /** Length of the sliding feature window submitted to the classifier. */
  const SequenceLength: nat := 30
  /** Number of tokens the rolling sentence keeps. */
  const SentenceLength: nat := 5

  // ---------------------------------------------------------------------
  // np.argmax: the FIRST index holding the maximum

  function ArgMax(s: seq<real>): (k: nat)
    requires |s| > 0
    ensures k < |s|
    ensures forall j :: 0 <= j < |s| ==> s[j] <= s[k]
    ensures forall j :: 0 <= j < k ==> s[j] < s[k]
    decreases |s|
  {
    if |s| == 1 then 0
    else
      var k := ArgMax(s[..|s| - 1]);
      if s[|s| - 1] > s[k] then |s| - 1 else k
  }

  /** The first-max property determines the argmax uniquely. */
  lemma ArgMaxUnique(s: seq<real>, k: nat)
    requires k < |s|
    requires forall j :: 0 <= j < |s| ==> s[j] <= s[k]
    requires forall j :: 0 <= j < k ==> s[j] < s[k]
    ensures ArgMax(s) == k
  {
  }

  // ---------------------------------------------------------------------
  // np.unique(xs)[0]: the smallest element

  function Min(s: seq<nat>): (m: nat)
    requires |s| > 0
    ensures m in s
    ensures forall j :: 0 <= j < |s| ==> m <= s[j]
    decreases |s|
  {
    if |s| == 1 then s[0]
    else
      var m := Min(s[1..]);
      assert forall j :: 1 <= j < |s| ==> s[j] == s[1..][j - 1];
      if s[0] < m then s[0] else m
  }

  // ---------------------------------------------------------------------
  // The stability gate: `len(predictions) > n and np.unique(predictions[-n:])[0] == best_idx`,
  // where best_idx is the entry just appended

  predicate Stable(predictions: seq<nat>, n: nat)
    requires n > 0
  {
    |predictions| > n && Min(predictions[|predictions| - n..]) == predictions[|predictions| - 1]
  }

  /** The gate holds exactly when the history is long enough and the newest index is
      no larger than any of the last `n` entries; it does NOT demand that they agree. */
  lemma StableIff(predictions: seq<nat>, n: nat)
    requires n > 0
    ensures Stable(predictions, n) <==>
              |predictions| > n &&
              forall j :: |predictions| - n <= j < |predictions| ==> predictions[|predictions| - 1] <= predictions[j]
  {
    if |predictions| > n {
      var w := predictions[|predictions| - n..];
      var last := predictions[|predictions| - 1];
      assert w[n - 1] == last;
      if forall j :: |predictions| - n <= j < |predictions| ==> last <= predictions[j] {
        var m := Min(w);
        var i :| 0 <= i < n && w[i] == m;
        assert predictions[|predictions| - n + i] == m;
      }
    }
  }

  /** A run of `n` identical newest entries passes the gate once the history is longer than `n`. */
  lemma RunIsStable(predictions: seq<nat>, n: nat)
    requires n > 0 && |predictions| > n
    requires forall j :: |predictions| - n <= j < |predictions| ==> predictions[j] == predictions[|predictions| - 1]
    ensures Stable(predictions, n)
  {
    StableIff(predictions, n);
  }

  /** However uniform the run, a history of at most `n` entries never passes. */
  lemma ShortHistoryUnstable(predictions: seq<nat>, n: nat)
    requires n > 0 && |predictions| <= n
    ensures !Stable(predictions, n)
  {
  }

  /** The gate is not a run-length test: any window whose newest index is its smallest passes. */
  lemma NewestSmallestIsStable()
    ensures var p := [1, 1, 1, 1, 1, 1, 1, 1, 0];
            && Stable(p, 8)
            && !(forall j :: |p| - 8 <= j < |p| ==> p[j] == p[|p| - 1])
  {
    var p := [1, 1, 1, 1, 1, 1, 1, 1, 0];
    StableIff(p, 8);
    assert p[1] != p[8];
  }

  // ---------------------------------------------------------------------
  // Python's `s[-n:]` for a positive n

  function TakeLast<T>(s: seq<T>, n: nat): (r: seq<T>)
    requires n > 0
    ensures |r| == if |s| < n then |s| else n
  {
    if |s| <= n then s else s[|s| - n..]
  }

  /** Truncating before an append changes nothing once the append is truncated too. */
  lemma TakeLastAppend<T>(s: seq<T>, x: T, n: nat)
    requires n > 0
    ensures TakeLast(TakeLast(s, n) + [x], n) == TakeLast(s + [x], n)
  {
    var t := TakeLast(s, n);
    var lhs := TakeLast(t + [x], n);
    var rhs := TakeLast(s + [x], n);
    assert |lhs| == |rhs|;
    forall j | 0 <= j < |lhs| ensures lhs[j] == rhs[j] {
      TakeLastIndex(s + [x], n, j);
      TakeLastIndex(t + [x], n, j);
      if j < |lhs| - 1 {
        TakeLastIndex(s, n, |t| - |lhs| + 1 + j);
      }
    }
  }

  /** A truncation is a suffix, so it keeps the newest elements in their order. */
  lemma TakeLastIndex<T>(s: seq<T>, n: nat, j: nat)
    requires n > 0 && j < |TakeLast(s, n)|
    ensures TakeLast(s, n)[j] == s[|s| - |TakeLast(s, n)| + j]
  {
  }

  // ---------------------------------------------------------------------
  // The sentence

  /** No two neighbouring tokens are equal. */
  predicate NoAdjacentDuplicates(s: seq<Label>)
  {
    forall i :: 0 < i < |s| ==> s[i - 1] != s[i]
  }

  /** Append `gesture` unless it would repeat the last token. */
  function AppendDistinct(sentence: seq<Label>, gesture: Label): (r: seq<Label>)
    ensures r == sentence || r == sentence + [gesture]
    ensures r == sentence + [gesture] <==> (sentence == [] || sentence[|sentence| - 1] != gesture)
    ensures NoAdjacentDuplicates(sentence) ==> NoAdjacentDuplicates(r)
    ensures |r| > 0 && r[|r| - 1] == gesture
  {
    if |sentence| > 0 && sentence[|sentence| - 1] == gesture then sentence else sentence + [gesture]
  }

  /** Keeping the newest tokens keeps the no-repeat invariant. */
  lemma TakeLastNoAdjacentDuplicates(s: seq<Label>, n: nat)
    requires n > 0 && NoAdjacentDuplicates(s)
    ensures NoAdjacentDuplicates(TakeLast(s, n))
  {
    var r := TakeLast(s, n);
    forall i | 0 < i < |r| ensures r[i - 1] != r[i] {
      TakeLastIndex(s, n, i - 1);
      TakeLastIndex(s, n, i);
    }
  }

  /** The sentence is the newest tokens of the transcript of every gesture ever appended;
      appending to and truncating the sentence keeps that relation with the longer transcript. */
  lemma SentenceFollowsTranscript(transcript: seq<Label>, gesture: Label)
    ensures var sentence := TakeLast(transcript, SentenceLength);
            var grown := AppendDistinct(sentence, gesture) != sentence;
            && (grown <==> (transcript == [] || transcript[|transcript| - 1] != gesture))
            && TakeLast(AppendDistinct(sentence, gesture), SentenceLength)
               == TakeLast(if grown then transcript + [gesture] else transcript, SentenceLength)
  {
    var sentence := TakeLast(transcript, SentenceLength);
    if transcript != [] {
      TakeLastIndex(transcript, SentenceLength, |sentence| - 1);
    }
    if AppendDistinct(sentence, gesture) != sentence {
      TakeLastAppend(transcript, gesture, SentenceLength);
    }
  }
}

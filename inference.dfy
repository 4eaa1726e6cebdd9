/**
 * The command-line translator's main loop: the same window, arg-max history
 * and sentence as the engine, kept in local variables, with a stability gate
 * over the last 5 results, one confidence threshold of 0.8 for every class,
 * and a spoken word for every token added to the sentence.
 *
 * The camera, detector, classifier thread and speech thread are inputs and
 * outputs: each pass of the loop is given a `Capture` (whether the read
 * succeeded, the detector's landmarks, the classifier's latest result, and
 * whether 'q' was pressed), and reports the window it submitted and the
 * word it spoke.
 */
module Inference {
  import opened Common
  import opened Stability
  import opened Features

  /** The stability gate looks at this many of the newest predictions. */
  const StabilityWindow: nat := 5

  /** Confidence every class must exceed. */
  const Threshold: real := 0.8

  /** The class names, in the classifier's output order. */
  const Actions: seq<Label> := ["Hello", "ThankYou", "Help", "Please"]

  /** What one pass of the loop sees. */
  datatype Capture = Capture(ok: bool, landmarks: Option<seq<Point>>, result: Option<seq<real>>, quit: bool)

  /** The loop's local state. */
  datatype Locals = Locals(sequence: seq<FeatureVector>, predictions: seq<nat>, sentence: seq<Label>)

  /** The classifier-result half of a pass: new history and sentence, the word
      handed to the speech thread, and the exception that ends the program. */
  datatype Recognised = Recognised(predictions: seq<nat>, sentence: seq<Label>, spoken: Option<Label>, failure: Option<Failure>)

  /** A whole pass: the new locals, the submitted window, the spoken word, the exception. */
  datatype Pass = Pass(after: Locals, submitted: Option<seq<FeatureVector>>, spoken: Option<Label>, failure: Option<Failure>)

  /** src/inference.py lines 204-232 on the latest result. An index that names no class raises
      either when the label is looked up for the sentence, or else when it is
      looked up for the on-screen caption. */
  function Recognise(predictions: seq<nat>, sentence: seq<Label>, res: Option<seq<real>>): Recognised
  {
    if res.None? then Recognised(predictions, sentence, None, None)
    else if res.value == [] then Recognised(predictions, sentence, None, Some(EmptyResult))
    else
      var best := ArgMax(res.value);
      var predictions' := predictions + [best];
      var confident := Stable(predictions', StabilityWindow) && res.value[best] > Threshold;
      if confident && best >= |Actions| then
        Recognised(predictions', sentence, None, Some(LabelIndex(best)))
      else if confident then
        var grown := AppendDistinct(sentence, Actions[best]);
        Recognised(predictions', TakeLast(grown, SentenceLength),
                   if grown != sentence then Some(Actions[best]) else None, None)
      else
        Recognised(predictions', TakeLast(sentence, SentenceLength), None,
                   if best >= |Actions| then Some(LabelIndex(best)) else None)
  }

  /** One pass of the loop, as a function of the locals before it. */
  function Iteration(l: Locals, norm: Point -> real, c: Capture): Pass
  {
    if !c.ok then Pass(l, None, None, None)
    else
      var sequence := if Detected(c.landmarks)
                      then TakeLast(l.sequence + [Extract(c.landmarks, norm)], SequenceLength)
                      else l.sequence;
      var submitted := if Detected(c.landmarks) && |sequence| == SequenceLength then Some(sequence) else None;
      var r := Recognise(l.predictions, l.sentence, c.result);
      Pass(Locals(sequence, r.predictions, r.sentence), submitted, r.spoken, r.failure)
  }

  /** The feature vectors the first n captures of a run push into the window, in order. */
  function Pushed(cs: seq<Capture>, n: nat, norm: Point -> real): seq<FeatureVector>
    requires n <= |cs|
  {
    if n == 0 then []
    else
      var c := cs[n - 1];
      Pushed(cs, n - 1, norm) + (if c.ok && Detected(c.landmarks) then [Extract(c.landmarks, norm)] else [])
  }

  // ---------------------------------------------------------------------
  // Properties of one pass

  /** A word is spoken exactly when the gate lets a label through that is not
      already the sentence's last token; the history grows by the arg-max of
      every non-empty result and is never trimmed. */
  lemma SpeaksExactlyOnAppend(predictions: seq<nat>, sentence: seq<Label>, res: Option<seq<real>>)
    ensures var r := Recognise(predictions, sentence, res);
            && (r.spoken.Some? <==>
                  && res.Some? && res.value != []
                  && var k := ArgMax(res.value);
                     && |predictions| >= StabilityWindow
                     && (forall j :: |predictions| - (StabilityWindow - 1) <= j < |predictions| ==> k <= predictions[j])
                     && res.value[k] > Threshold
                     && k < |Actions|
                     && (sentence == [] || sentence[|sentence| - 1] != Actions[k]))
            && (r.spoken.Some? ==> r.spoken.value == Actions[ArgMax(res.value)] && r.failure.None?)
            && r.predictions == (if res.Some? && res.value != [] then predictions + [ArgMax(res.value)] else predictions)
  {
    if res.Some? && res.value != [] {
      var k := ArgMax(res.value);
      var p := predictions + [k];
      StableIff(p, StabilityWindow);
      if |predictions| >= StabilityWindow {
        forall j | |predictions| - (StabilityWindow - 1) <= j < |predictions|
          ensures p[j] == predictions[j]
        {
        }
      }
    }
  }

  /** The sentence is the newest 5 words spoken so far, and no word is spoken
      twice in a row. */
  lemma SentenceIsNewestSpoken(predictions: seq<nat>, sentence: seq<Label>, spoken: seq<Label>, res: Option<seq<real>>)
    requires sentence == TakeLast(spoken, SentenceLength)
    requires NoAdjacentDuplicates(spoken)
    ensures var r := Recognise(predictions, sentence, res);
            var spoken' := spoken + (if r.spoken.Some? then [r.spoken.value] else []);
            && r.sentence == TakeLast(spoken', SentenceLength)
            && NoAdjacentDuplicates(spoken')
            && |r.sentence| <= SentenceLength
  {
    var r := Recognise(predictions, sentence, res);
    if res.Some? && res.value != [] {
      var best := ArgMax(res.value);
      var confident := Stable(predictions + [best], StabilityWindow) && res.value[best] > Threshold;
      if confident && best < |Actions| {
        var g := Actions[best];
        SentenceFollowsTranscript(spoken, g);
        assert r.sentence == TakeLast(AppendDistinct(sentence, g), SentenceLength);
        if r.spoken.Some? {
          assert spoken + [g] == AppendDistinct(spoken, g);
        }
      } else {
        assert r.sentence == TakeLast(sentence, SentenceLength) == sentence;
      }
    }
  }

  /** A missing capture changes nothing; otherwise the window is the newest 30
      pushed vectors and is submitted exactly when it is full after a push. */
  lemma WindowOfPass(l: Locals, norm: Point -> real, cs: seq<Capture>, n: nat)
    requires n < |cs|
    requires l.sequence == TakeLast(Pushed(cs, n, norm), SequenceLength)
    ensures var c := cs[n];
            var p := Iteration(l, norm, c);
            && (!c.ok ==> p == Pass(l, None, None, None))
            && (!Detected(c.landmarks) ==> p.after.sequence == l.sequence && p.submitted == None)
            && p.after.sequence == TakeLast(Pushed(cs, n + 1, norm), SequenceLength)
            && |p.after.sequence| <= SequenceLength
            && p.submitted == (if c.ok && Detected(c.landmarks) && |Pushed(cs, n + 1, norm)| >= SequenceLength
                               then Some(p.after.sequence) else None)
  {
    var c := cs[n];
    if c.ok && Detected(c.landmarks) {
      TakeLastAppend(Pushed(cs, n, norm), Extract(c.landmarks, norm), SequenceLength);
    }
  }

  /** One pass keeps the loop's invariant: the sentence is the newest 5 words
      spoken, none twice in a row, and the window is the newest 30 pushed vectors. */
  lemma PassKeepsInvariant(l: Locals, norm: Point -> real, cs: seq<Capture>, n: nat, spoken: seq<Label>)
    requires n < |cs|
    requires l.sentence == TakeLast(spoken, SentenceLength) && NoAdjacentDuplicates(spoken)
    requires l.sequence == TakeLast(Pushed(cs, n, norm), SequenceLength)
    ensures var p := Iteration(l, norm, cs[n]);
            var spoken' := spoken + (if p.spoken.Some? then [p.spoken.value] else []);
            && p.after.sentence == TakeLast(spoken', SentenceLength)
            && NoAdjacentDuplicates(spoken')
            && p.after.sequence == TakeLast(Pushed(cs, n + 1, norm), SequenceLength)
            && |p.after.predictions| <= |l.predictions| + 1
            && (p.submitted.Some? ==> |p.submitted.value| == SequenceLength)
  {
    WindowOfPass(l, norm, cs, n);
    if cs[n].ok {
      SentenceIsNewestSpoken(l.predictions, l.sentence, spoken, cs[n].result);
      SpeaksExactlyOnAppend(l.predictions, l.sentence, cs[n].result);
    }
  }

  /** A run in which "Please" (index 3) held for five results is followed by a
      confident "Hello" (index 0): the newest index is the smallest of the last
      five, so "Hello" is spoken although it was seen only once. */
  lemma OneFrameHelloAccepted(res: seq<real>)
    requires |res| == 4 && res[0] > Threshold
    requires forall j :: 0 < j < |res| ==> res[j] < res[0]
    ensures Recognise([3, 3, 3, 3, 3], ["Please"], Some(res)).spoken == Some("Hello")
  {
    ArgMaxUnique(res, 0);
    assert Stable([3, 3, 3, 3, 3] + [0], StabilityWindow) by {
      assert ([3, 3, 3, 3, 3] + [0])[1..] == [3, 3, 3, 3, 0];
      assert Min([3, 3, 3, 3, 0]) == 0;
    }
    assert AppendDistinct(["Please"], "Hello") == ["Please", "Hello"];
  }

  // ---------------------------------------------------------------------
  // A run of passes

  /** What the loop has done so far: its locals, the windows it submitted, the
      words it spoke and the exception of the latest pass. */
  datatype Progress = Progress(locals: Locals, submissions: seq<seq<FeatureVector>>, spoken: seq<Label>,
                               failure: Option<Failure>)

  /** 'q' is read only on a frame that was processed. */
  predicate Quits(c: Capture)
  {
    c.ok && c.quit
  }

  /** One more pass: its window is submitted and its word spoken. */
  function Advanced(pr: Progress, norm: Point -> real, c: Capture): Progress
  {
    var p := Iteration(pr.locals, norm, c);
    Progress(p.after,
             pr.submissions + (if p.submitted.Some? then [p.submitted.value] else []),
             pr.spoken + (if p.spoken.Some? then [p.spoken.value] else []),
             p.failure)
  }

  /** The first n passes over a run of captures, from empty locals. */
  function Replay(norm: Point -> real, cs: seq<Capture>, n: nat): Progress
    requires n <= |cs|
  {
    if n == 0 then Progress(Locals([], [], []), [], [], None)
    else Advanced(Replay(norm, cs, n - 1), norm, cs[n - 1])
  }

  /** None of the first n - 1 passes raised or quit, so the loop went on to pass n. */
  predicate Continued(norm: Point -> real, cs: seq<Capture>, n: nat)
    requires n <= |cs|
  {
    forall i :: 0 < i < n ==> Replay(norm, cs, i).failure.None? && !Quits(cs[i - 1])
  }

  /** The loop goes on past pass n when that pass neither raised nor quit. */
  lemma ContinuedExtends(norm: Point -> real, cs: seq<Capture>, n: nat)
    requires n < |cs| && Continued(norm, cs, n)
    requires n > 0 ==> Replay(norm, cs, n).failure.None? && !Quits(cs[n - 1])
    ensures Continued(norm, cs, n + 1)
  {
  }

  /** After any number of passes the sentence is the newest 5 words spoken,
      none spoken twice in a row; the window is the newest 30 vectors pushed;
      the history has at most one entry per pass; every submission is full. */
  lemma {:induction false} ReplayInvariant(norm: Point -> real, cs: seq<Capture>, n: nat)
    requires n <= |cs|
    ensures var r := Replay(norm, cs, n);
            && r.locals.sentence == TakeLast(r.spoken, SentenceLength)
            && NoAdjacentDuplicates(r.spoken)
            && |r.locals.sentence| <= SentenceLength
            && r.locals.sequence == TakeLast(Pushed(cs, n, norm), SequenceLength)
            && |r.locals.predictions| <= n
            && forall w :: w in r.submissions ==> |w| == SequenceLength
  {
    if n > 0 {
      var r := Replay(norm, cs, n - 1);
      ReplayInvariant(norm, cs, n - 1);
      PassKeepsInvariant(r.locals, norm, cs, n - 1, r.spoken);
      var p := Iteration(r.locals, norm, cs[n - 1]);
      assert Replay(norm, cs, n) == Progress(p.after,
               r.submissions + (if p.submitted.Some? then [p.submitted.value] else []),
               r.spoken + (if p.spoken.Some? then [p.spoken.value] else []),
               p.failure);
    }
  }

  // ---------------------------------------------------------------------
  // The loop

  /** src/inference.py lines 192-227 for one capture: push the features, submit a full window,
      then record the result and update the sentence. */
  method Iterate(l: Locals, norm: Point -> real, c: Capture)
    returns (after: Locals, submitted: Option<seq<FeatureVector>>, spoken: Option<Label>, failure: Option<Failure>)
    ensures Pass(after, submitted, spoken, failure) == Iteration(l, norm, c)
  {
    if !c.ok {
      return l, None, None, None;
    }
    var sequence;
    sequence, submitted := PushWindow(l.sequence, c.landmarks, norm);
    var predictions, sentence;
    predictions, sentence, spoken, failure := RecogniseResult(l.predictions, l.sentence, c.result);
    after := Locals(sequence, predictions, sentence);
  }

  /** src/inference.py lines 192-199: push the hand's features, keep the newest 30, submit a full window. */
  method PushWindow(sequence: seq<FeatureVector>, lm: Option<seq<Point>>, norm: Point -> real)
    returns (sequence': seq<FeatureVector>, submitted: Option<seq<FeatureVector>>)
    ensures sequence' == Iteration(Locals(sequence, [], []), norm, Capture(true, lm, None, false)).after.sequence
    ensures submitted == Iteration(Locals(sequence, [], []), norm, Capture(true, lm, None, false)).submitted
  {
    sequence', submitted := sequence, None;
    if Detected(lm) {
      var features := Extract(lm, norm);
      sequence' := sequence' + [features];
      sequence' := TakeLast(sequence', SequenceLength);
      if |sequence'| == SequenceLength {
        submitted := Some(sequence');
      }
    }
  }

  /** src/inference.py lines 202-232: record the latest result, pass the gate, speak and append, truncate. */
  method RecogniseResult(predictions: seq<nat>, sentence: seq<Label>, res: Option<seq<real>>)
    returns (predictions': seq<nat>, sentence': seq<Label>, spoken: Option<Label>, failure: Option<Failure>)
    ensures Recognised(predictions', sentence', spoken, failure) == Recognise(predictions, sentence, res)
  {
    predictions', sentence', spoken, failure := predictions, sentence, None, None;
    if res.Some? {
      if res.value == [] {
        return predictions, sentence, None, Some(EmptyResult);
      }
      var best := ArgMax(res.value);
      var conf := res.value[best];
      predictions' := predictions' + [best];
      if Stable(predictions', StabilityWindow) {
        if conf > Threshold {
          if best >= |Actions| {
            return predictions', sentence, None, Some(LabelIndex(best));
          }
          var current := Actions[best];
          if |sentence'| > 0 {
            if current != sentence'[|sentence'| - 1] {
              sentence' := sentence' + [current];
              spoken := Some(current);
            }
          } else {
            sentence' := sentence' + [current];
            spoken := Some(current);
          }
        }
      }
      if |sentence'| > SentenceLength {
        sentence' := sentence'[|sentence'| - SentenceLength..];
      }
      if best >= |Actions| {
        failure := Some(LabelIndex(best));
      }
    }
  }

  /** One pass of the loop together with its effects: a full window joins the
      submissions and a newly accepted word is handed to the speech thread. */
  method Advance(l: Locals, norm: Point -> real, captures: seq<Capture>, steps: nat,
                 submissions: seq<seq<FeatureVector>>, spoken: seq<Label>)
    returns (l': Locals, submissions': seq<seq<FeatureVector>>, spoken': seq<Label>, failure: Option<Failure>)
    requires steps < |captures|
    requires Progress(l, submissions, spoken, None) == Replay(norm, captures, steps)
    ensures Progress(l', submissions', spoken', failure) == Replay(norm, captures, steps + 1)
  {
    assert Replay(norm, captures, steps + 1) == Advanced(Progress(l, submissions, spoken, None), norm, captures[steps]);
    var submitted, word;
    l', submitted, word, failure := Iterate(l, norm, captures[steps]);
    submissions', spoken' := submissions, spoken;
    if submitted.Some? {
      submissions' := submissions' + [submitted.value];
    }
    if word.Some? {
      spoken' := spoken' + [word.value];
    }
  }

  /** The loop over a finite run of captures, from empty locals, until the
      captures run out, 'q' is pressed on a processed frame, or an exception
      ends the program. What it returns is the replay of the passes it took,
      and no pass before the last raised or quit. */
  method Run(norm: Point -> real, captures: seq<Capture>)
    returns (l: Locals, submissions: seq<seq<FeatureVector>>, spoken: seq<Label>, failure: Option<Failure>, steps: nat)
    ensures steps <= |captures|
    ensures Progress(l, submissions, spoken, failure) == Replay(norm, captures, steps)
    ensures Continued(norm, captures, steps)
    ensures steps < |captures| ==> failure.Some? || (steps > 0 && Quits(captures[steps - 1]))
    ensures l.sentence == TakeLast(spoken, SentenceLength) && NoAdjacentDuplicates(spoken)
    ensures |l.sentence| <= SentenceLength
    ensures l.sequence == TakeLast(Pushed(captures, steps, norm), SequenceLength)
    ensures |l.predictions| <= steps
    ensures forall w :: w in submissions ==> |w| == SequenceLength
  {
    l := Locals([], [], []);
    submissions, spoken, failure, steps := [], [], None, 0;
    var quit := false;
    while steps < |captures| && failure.None? && !quit
      invariant steps <= |captures|
      invariant Progress(l, submissions, spoken, failure) == Replay(norm, captures, steps)
      invariant Continued(norm, captures, steps)
      invariant quit == (steps > 0 && Quits(captures[steps - 1]))
    {
      var c := captures[steps];
      ContinuedExtends(norm, captures, steps);
      l, submissions, spoken, failure := Advance(l, norm, captures, steps, submissions, spoken);
      quit := Quits(c);
      steps := steps + 1;
    }
    ReplayInvariant(norm, captures, steps);
  }
}

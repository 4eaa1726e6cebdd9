/**
 * `SignLanguageSystem`, the facade shared by the web backend and the CLI:
 * per frame it pushes the hand's feature vector into a 30-frame window,
 * hands a full window to the classifier, records the arg-max of the
 * classifier's latest result, and lets a label into the rolling sentence
 * only once it is stable over the last 8 results and confident enough for
 * its class.
 *
 * The camera, the hand detector and the classifier thread are inputs here:
 * whether a frame came with an image, the detector's landmark list and the
 * classifier's latest probability vector. `Step` is the pipeline as a
 * function of the state before the frame; `ProcessFrame` is the same
 * pipeline written as the statement-by-statement update of the object, and
 * its postcondition ties the two together.
 */
module Engine {
  import opened Common
  import opened Stability
  import opened Features

  /** The stability gate looks at this many of the newest predictions. */
  const StabilityWindow: nat := 8

  /** Confidence a label needs when it has no threshold of its own. */
  const DefaultThreshold: real := 0.85

  /** Per-class confidence thresholds; "Help" is held to a stricter bar. */
  const ClassThresholds: map<Label, real> :=
    map["Help" := 0.95, "Please" := 0.85, "Hello" := 0.85, "ThankYou" := 0.85]

  /** `class_thresholds.get(label, threshold)`: the confidence a label must exceed. */
  function RequiredConfidence(gesture: Label): (t: real)
    ensures t == (if gesture == "Help" then 0.95 else 0.85)
    ensures t >= DefaultThreshold
  {
    if gesture in ClassThresholds then ClassThresholds[gesture] else DefaultThreshold
  }

  /** The dictionary returned beside the sentence: `{}` or `{"class": …, "confidence": …}`. */
  datatype PredictionData = NoData | Prediction(gesture: Option<Label>, confidence: real)

  /** What a call returns: the (annotated or absent) image, the sentence and the
      prediction data — or the exception it raises. */
  datatype Outcome =
    | Frame(annotated: bool, sentence: seq<Label>, data: PredictionData)
    | Raised(failure: Failure)

  /** The label a call accepted, if any. */
  function Accepted(o: Outcome): Option<Label>
  {
    if o.Frame? && o.data.Prediction? then o.data.gesture else None
  }

  /** The three fields a frame updates. */
  datatype Snapshot = Snapshot(sequence: seq<FeatureVector>, predictions: seq<nat>, sentence: seq<Label>)

  /** The state after a frame, what the call returned and the window it submitted. */
  datatype StepResult = StepResult(after: Snapshot, outcome: Outcome, submitted: Option<seq<FeatureVector>>)

  /** The window after a frame whose detector output is `lm` (src/engine.py lines 137-140). */
  function Push(sequence: seq<FeatureVector>, lm: Option<seq<Point>>, norm: Point -> real): seq<FeatureVector>
  {
    if Detected(lm) then TakeLast(sequence + [Extract(lm, norm)], SequenceLength) else sequence
  }

  /** What handling the classifier's latest result leaves behind (src/engine.py lines 146-172). */
  datatype Handled = Handled(predictions: seq<nat>, sentence: seq<Label>, outcome: Outcome)

  /** The result-handling half of a frame, as a function of the history and the sentence. */
  function Handle(predictions: seq<nat>, sentence: seq<Label>, actions: seq<Label>, res: Option<seq<real>>): Handled
  {
    if res.None? then
      Handled(predictions, sentence, Frame(true, sentence, Prediction(None, 0.0)))
    else if res.value == [] then
      Handled(predictions, sentence, Raised(EmptyResult))
    else
      var best := ArgMax(res.value);
      var predictions' := predictions + [best];
      var stable := Stable(predictions', StabilityWindow);
      if stable && best >= |actions| then
        Handled(predictions', sentence, Raised(LabelIndex(best)))
      else if stable && res.value[best] > RequiredConfidence(actions[best]) then
        var sentence' := TakeLast(AppendDistinct(sentence, actions[best]), SentenceLength);
        Handled(predictions', sentence', Frame(true, sentence', Prediction(Some(actions[best]), res.value[best])))
      else
        var sentence' := TakeLast(sentence, SentenceLength);
        Handled(predictions', sentence', Frame(true, sentence', Prediction(None, 0.0)))
  }

  /** One call of `process_frame`, as a function of the state before it. */
  function Step(s: Snapshot, actions: seq<Label>, norm: Point -> real,
                hasImage: bool, lm: Option<seq<Point>>, res: Option<seq<real>>): StepResult
  {
    if !hasImage then StepResult(s, Frame(false, s.sentence, NoData), None)
    else
      var sequence := Push(s.sequence, lm, norm);
      var submitted := if Detected(lm) && |sequence| == SequenceLength then Some(sequence) else None;
      var h := Handle(s.predictions, s.sentence, actions, res);
      StepResult(Snapshot(sequence, h.predictions, h.sentence), h.outcome, submitted)
  }

  // ---------------------------------------------------------------------
  // Properties of one frame

  /** Without an image nothing changes and `(None, sentence, {})` comes back. */
  lemma NoImageChangesNothing(s: Snapshot, actions: seq<Label>, norm: Point -> real,
                              lm: Option<seq<Point>>, res: Option<seq<real>>)
    ensures var r := Step(s, actions, norm, false, lm, res);
            r.after == s && r.outcome == Frame(false, s.sentence, NoData) && r.submitted == None
  {
  }

  /** The window is the newest 30 of every feature vector pushed so far; it is
      submitted exactly when a hand was seen and at least 30 vectors were pushed,
      and what is submitted is the window itself. */
  lemma WindowFollowsFeatures(s: Snapshot, pushed: seq<FeatureVector>, actions: seq<Label>, norm: Point -> real,
                              hasImage: bool, lm: Option<seq<Point>>, res: Option<seq<real>>)
    requires s.sequence == TakeLast(pushed, SequenceLength)
    ensures var r := Step(s, actions, norm, hasImage, lm, res);
            var pushed' := if hasImage && Detected(lm) then pushed + [Extract(lm, norm)] else pushed;
            && r.after.sequence == TakeLast(pushed', SequenceLength)
            && |r.after.sequence| <= SequenceLength
            && r.submitted == (if hasImage && Detected(lm) && |pushed'| >= SequenceLength
                               then Some(r.after.sequence) else None)
  {
    if hasImage && Detected(lm) {
      TakeLastAppend(pushed, Extract(lm, norm), SequenceLength);
    }
  }

  /** `predictions` grows by one entry exactly when the result is present and
      non-empty, and that entry is the first index of a largest probability;
      nothing is ever removed. */
  lemma PredictionsRecordArgMax(predictions: seq<nat>, sentence: seq<Label>, actions: seq<Label>, res: Option<seq<real>>)
    ensures var p := Handle(predictions, sentence, actions, res).predictions;
            && (|p| == |predictions| + 1 <==> res.Some? && res.value != [])
            && (|p| == |predictions| + 1 || p == predictions)
            && p[..|predictions|] == predictions
            && (|p| > |predictions| ==>
                  var k := p[|p| - 1];
                  && k < |res.value|
                  && (forall j :: 0 <= j < |res.value| ==> res.value[j] <= res.value[k])
                  && (forall j :: 0 <= j < k ==> res.value[j] < res.value[k]))
  {
    var p := Handle(predictions, sentence, actions, res).predictions;
    assert p[..|predictions|] == predictions;
  }

  /** A label is accepted exactly when a non-empty result was read, at least 8
      earlier predictions exist, its arg-max `k` is no larger than any of the 7
      newest earlier predictions, `k` names a label, and the probability beats
      that label's threshold; the prediction data then carry that label and
      probability, and otherwise they are `{"class": None, "confidence": 0.0}`. */
  lemma AcceptedIff(predictions: seq<nat>, sentence: seq<Label>, actions: seq<Label>, res: Option<seq<real>>)
    ensures var o := Handle(predictions, sentence, actions, res).outcome;
            && (Accepted(o).Some? <==>
                  && res.Some? && res.value != []
                  && var k := ArgMax(res.value);
                     && |predictions| >= StabilityWindow
                     && (forall j :: |predictions| - (StabilityWindow - 1) <= j < |predictions| ==> k <= predictions[j])
                     && k < |actions|
                     && res.value[k] > RequiredConfidence(actions[k]))
            && (Accepted(o).Some? ==>
                  var k := ArgMax(res.value);
                  o.data == Prediction(Some(actions[k]), res.value[k]))
            && (o.Frame? && Accepted(o).None? ==> o.data == Prediction(None, 0.0))
  {
    if res.Some? && res.value != [] {
      var k := ArgMax(res.value);
      var p := predictions + [k];
      StableIff(p, StabilityWindow);
      if |predictions| >= StabilityWindow {
        forall j | |predictions| - (StabilityWindow - 1) <= j < |predictions|
          ensures p[j] == predictions[j]
        {
        }
      }
    }
  }

  /** The sentence is the newest 5 tokens of the transcript of every label ever
      appended.  An accepted label is appended to the transcript exactly when it
      is not already its last token; at most one token is added per call; both
      the transcript and the sentence stay free of adjacent repeats, and the
      sentence never holds more than 5 tokens. */
  lemma SentenceFollowsTranscriptStep(predictions: seq<nat>, sentence: seq<Label>, transcript: seq<Label>,
                                      actions: seq<Label>, res: Option<seq<real>>)
    requires sentence == TakeLast(transcript, SentenceLength)
    requires NoAdjacentDuplicates(transcript)
    ensures var h := Handle(predictions, sentence, actions, res);
            var a := Accepted(h.outcome);
            var transcript' := if a.Some? then AppendDistinct(transcript, a.value) else transcript;
            && h.sentence == TakeLast(transcript', SentenceLength)
            && NoAdjacentDuplicates(transcript')
            && NoAdjacentDuplicates(h.sentence)
            && |h.sentence| <= SentenceLength
            && (transcript' == transcript || transcript' == transcript + [a.value])
            && (a.Some? ==> (transcript' == transcript + [a.value] <==>
                              transcript == [] || transcript[|transcript| - 1] != a.value))
            && (h.outcome.Frame? ==> h.outcome.sentence == h.sentence)
  {
    var h := Handle(predictions, sentence, actions, res);
    var a := Accepted(h.outcome);
    var transcript' := if a.Some? then AppendDistinct(transcript, a.value) else transcript;
    if a.Some? {
      var best := ArgMax(res.value);
      assert a.value == actions[best];
      assert h.sentence == TakeLast(AppendDistinct(sentence, a.value), SentenceLength);
      SentenceFollowsTranscript(transcript, a.value);
    } else {
      assert |sentence| <= SentenceLength;
      assert h.sentence == sentence;
    }
    TakeLastNoAdjacentDuplicates(transcript', SentenceLength);
  }

  /** An exception leaves the sentence alone; the empty result is the only one
      that raises before the prediction is recorded, and an index error names
      an arg-max that is not a label. */
  lemma FailuresKeepSentence(predictions: seq<nat>, sentence: seq<Label>, actions: seq<Label>, res: Option<seq<real>>)
    ensures var h := Handle(predictions, sentence, actions, res);
            && (h.outcome.Raised? ==> h.sentence == sentence)
            && (h.outcome == Raised(EmptyResult) <==> res == Some([]))
            && (h.outcome.Raised? && h.outcome.failure.LabelIndex? ==>
                  && res.Some? && res.value != []
                  && h.outcome.failure.index == ArgMax(res.value) >= |actions|
                  && h.predictions == predictions + [ArgMax(res.value)])
            && h.outcome != Raised(CameraNotInitialized)
  {
  }

  // ---------------------------------------------------------------------
  // Scenarios

  /** Eight confident results in a row from a fresh state are not yet enough:
      the gate needs more than 8 recorded predictions, so the ninth is the first
      that is accepted. */
  lemma NinthResultAccepted(actions: seq<Label>, res: seq<real>)
    requires |actions| > 0 && actions[0] == "Hello"
    requires |res| > 0 && res[0] > DefaultThreshold
    requires forall j :: 0 < j < |res| ==> res[j] < res[0]
    ensures Accepted(Handle([0, 0, 0, 0, 0, 0, 0], [], actions, Some(res)).outcome) == None
    ensures Accepted(Handle([0, 0, 0, 0, 0, 0, 0, 0], [], actions, Some(res)).outcome) == Some("Hello")
  {
    ArgMaxUnique(res, 0);
    AcceptedIff([0, 0, 0, 0, 0, 0, 0], [], actions, Some(res));
    AcceptedIff([0, 0, 0, 0, 0, 0, 0, 0], [], actions, Some(res));
  }

  /** "Help" at probability 0.9 is held back, though 0.9 beats every other
      class's threshold (compare `NinthResultAccepted`). */
  lemma HelpNeedsMoreConfidence(actions: seq<Label>)
    requires actions == ["Hello", "ThankYou", "Help", "Please"]
    ensures Accepted(Handle([2, 2, 2, 2, 2, 2, 2, 2], [], actions, Some([0.05, 0.03, 0.9, 0.02])).outcome) == None
  {
    var res := [0.05, 0.03, 0.9, 0.02];
    ArgMaxUnique(res, 2);
    assert Min([2, 2, 2, 2, 2, 2, 2, 2]) == 2;
    assert actions[2] == "Help" && RequiredConfidence("Help") == 0.95;
  }

  /** When a label is accepted, the new sentence is the old one with the label
      appended unless it repeats the last token, cut to the newest 5. */
  lemma AcceptedSentence(predictions: seq<nat>, sentence: seq<Label>, actions: seq<Label>, res: Option<seq<real>>)
    requires Accepted(Handle(predictions, sentence, actions, res).outcome).Some?
    ensures var h := Handle(predictions, sentence, actions, res);
            h.sentence == TakeLast(AppendDistinct(sentence, Accepted(h.outcome).value), SentenceLength)
  {
  }

  /** A new label accepted into a full sentence pushes the oldest token out. */
  lemma FullSentenceDropsOldest(predictions: seq<nat>, sentence: seq<Label>, actions: seq<Label>, res: Option<seq<real>>)
    requires Accepted(Handle(predictions, sentence, actions, res).outcome).Some?
    requires |sentence| == SentenceLength
    requires sentence[SentenceLength - 1] != Accepted(Handle(predictions, sentence, actions, res).outcome).value
    ensures var h := Handle(predictions, sentence, actions, res);
            h.sentence == sentence[1..] + [Accepted(h.outcome).value]
  {
    var g := Accepted(Handle(predictions, sentence, actions, res).outcome).value;
    AcceptedSentence(predictions, sentence, actions, res);
    assert AppendDistinct(sentence, g) == sentence + [g];
  }

  // ---------------------------------------------------------------------
  // The object

  class SignLanguageSystem {
    /** Class names, indexed by the classifier's output positions. */
    const actions: seq<Label>
    /** Whether a local capture source was opened (`capture_source is not None`). */
    const hasCamera: bool
    /** The Euclidean norm the feature extractor uses. */
    const norm: Point -> real

    /** Sliding window of the newest feature vectors. */
    var sequence: seq<FeatureVector>
    /** Every arg-max read so far; never trimmed. */
    var predictions: seq<nat>
    /** The newest tokens of the transcript. */
    var sentence: seq<Label>

    /** Every feature vector ever pushed into the window. */
    ghost var pushed: seq<FeatureVector>
    /** Every label ever appended to the sentence, before truncation. */
    ghost var transcript: seq<Label>

    ghost predicate Valid()
      reads this
    {
      && sequence == TakeLast(pushed, SequenceLength)
      && sentence == TakeLast(transcript, SentenceLength)
      && NoAdjacentDuplicates(transcript)
    }

    /** The fields a frame updates, as a value. */
    function State(): Snapshot
      reads this
    {
      Snapshot(sequence, predictions, sentence)
    }

    /** A fresh system: empty window, history and sentence. */
    constructor (actions: seq<Label>, captureSource: Option<int>, norm: Point -> real)
      ensures Valid()
      ensures this.actions == actions && hasCamera == captureSource.Some? && this.norm == norm
      ensures State() == Snapshot([], [], []) && pushed == [] && transcript == []
    {
      this.actions := actions;
      hasCamera := captureSource.Some?;
      this.norm := norm;
      sequence := [];
      predictions := [];
      sentence := [];
      pushed := [];
      transcript := [];
    }

    /** Detection, features, window, classifier result, stability and sentence. */
    method ProcessFrame(hasImage: bool, lm: Option<seq<Point>>, res: Option<seq<real>>)
      returns (out: Outcome, submitted: Option<seq<FeatureVector>>)
      requires Valid()
      modifies this
      ensures Valid()
      ensures var r := Step(old(State()), actions, norm, hasImage, lm, res);
              State() == r.after && out == r.outcome && submitted == r.submitted
      ensures pushed == if hasImage && Detected(lm) then old(pushed) + [Extract(lm, norm)] else old(pushed)
      ensures Accepted(out).None? ==> transcript == old(transcript)
      ensures Accepted(out).Some? ==> transcript == AppendDistinct(old(transcript), Accepted(out).value)
    {
      if !hasImage {
        return Frame(false, sentence, NoData), None;
      }
      submitted := PushFeatures(lm);
      out := HandleResult(res);
    }

    /** src/engine.py lines 137-143: push the hand's features and submit a full window. */
    method PushFeatures(lm: Option<seq<Point>>) returns (submitted: Option<seq<FeatureVector>>)
      requires Valid()
      modifies this`sequence, this`pushed
      ensures Valid()
      ensures sequence == Push(old(sequence), lm, norm)
      ensures submitted == if Detected(lm) && |sequence| == SequenceLength then Some(sequence) else None
      ensures pushed == if Detected(lm) then old(pushed) + [Extract(lm, norm)] else old(pushed)
    {
      submitted := None;
      if Detected(lm) {
        var features := Extract(lm, norm);
        TakeLastAppend(pushed, features, SequenceLength);
        sequence := sequence + [features];
        sequence := TakeLast(sequence, SequenceLength);
        pushed := pushed + [features];
        if |sequence| == SequenceLength {
          submitted := Some(sequence);
        }
      }
    }

    /** src/engine.py lines 146-172: record the latest result and update the sentence. */
    method HandleResult(res: Option<seq<real>>) returns (out: Outcome)
      requires Valid()
      modifies this`predictions, this`sentence, this`transcript
      ensures Valid()
      ensures var h := Handle(old(predictions), old(sentence), actions, res);
              predictions == h.predictions && sentence == h.sentence && out == h.outcome
      ensures Accepted(out).None? ==> transcript == old(transcript)
      ensures Accepted(out).Some? ==> transcript == AppendDistinct(old(transcript), Accepted(out).value)
    {
      var data := Prediction(None, 0.0);
      if res.Some? {
        if res.value == [] {
          return Raised(EmptyResult);
        }
        var best := ArgMax(res.value);
        var conf := res.value[best];
        predictions := predictions + [best];
        if Stable(predictions, StabilityWindow) {
          if best >= |actions| {
            return Raised(LabelIndex(best));
          }
          var current := actions[best];
          if conf > RequiredConfidence(current) {
            data := Prediction(Some(current), conf);
            AppendToSentence(current);
          }
        }
        TruncateSentence();
      }
      out := Frame(true, sentence, data);
    }

    /** The invariant, except that the sentence may not have been cut to 5 yet. */
    ghost predicate Untruncated()
      reads this
    {
      && sequence == TakeLast(pushed, SequenceLength)
      && TakeLast(sentence, SentenceLength) == TakeLast(transcript, SentenceLength)
      && NoAdjacentDuplicates(transcript)
    }

    /** src/engine.py lines 171-172: keep the newest 5 tokens. */
    method TruncateSentence()
      requires Untruncated()
      modifies this`sentence
      ensures Valid()
      ensures sentence == TakeLast(old(sentence), SentenceLength)
    {
      if |sentence| > SentenceLength {
        sentence := sentence[|sentence| - SentenceLength..];
      }
    }

    /** src/engine.py lines 165-169: append a label unless it repeats the last token. */
    method AppendToSentence(current: Label)
      requires Valid()
      modifies this`sentence, this`transcript
      ensures Untruncated()
      ensures sentence == AppendDistinct(old(sentence), current)
      ensures transcript == AppendDistinct(old(transcript), current)
    {
      SentenceFollowsTranscript(transcript, current);
      if |sentence| > 0 {
        if current != sentence[|sentence| - 1] {
          sentence := sentence + [current];
        }
      } else {
        sentence := sentence + [current];
      }
      transcript := AppendDistinct(transcript, current);
    }

    /** The legacy local-camera path: no camera raises, a failed read returns
        `(None, sentence, {})`, and a good frame goes through `ProcessFrame`. */
    method GetFrame(readOk: bool, hasImage: bool, lm: Option<seq<Point>>, res: Option<seq<real>>)
      returns (out: Outcome, submitted: Option<seq<FeatureVector>>)
      requires Valid()
      modifies this
      ensures Valid()
      ensures !hasCamera ==> out == Raised(CameraNotInitialized) && submitted == None
      ensures !(hasCamera && readOk && hasImage) ==>
                State() == old(State()) && pushed == old(pushed) && transcript == old(transcript)
      ensures hasCamera && !(readOk && hasImage) ==> out == Frame(false, sentence, NoData) && submitted == None
      ensures hasCamera && readOk && hasImage ==>
                var r := Step(old(State()), actions, norm, true, lm, res);
                State() == r.after && out == r.outcome && submitted == r.submitted
    {
      if !hasCamera {
        return Raised(CameraNotInitialized), None;
      }
      if !readOk || !hasImage {
        return Frame(false, sentence, NoData), None;
      }
      out, submitted := ProcessFrame(true, lm, res);
    }
  }
}

# SignFlow-AI stabilisation pipeline in Dafny

This project models the per-frame logic of SignFlow-AI. The pipeline turns a
live stream of hand landmarks and classifier outputs into a stable rolling
sentence of gesture labels. The model has three parts, one per source file.

- **`SignLanguageSystem`** (`src/engine.py`) is the facade shared by the web
  backend and the CLI. Each frame goes through these steps:
  - push the hand's feature vector into a 30-frame window;
  - submit the window to the classifier once it is exactly full;
  - record the arg-max of the classifier's latest probability vector;
  - accept the label if it passes the stability gate over the newest 8
    predictions and beats its class's confidence threshold ("Help" 0.95,
    every other class 0.85);
  - append it to the sentence unless it repeats the last token, then keep
    the newest 5 tokens.

  In the model, `Engine.SignLanguageSystem` is a class with `seq` fields.
  `ProcessFrame` performs the update statement by statement, and its
  postcondition equates the new state with the specification function
  `Engine.Step`. Ghost fields record everything ever pushed into the window
  (`pushed`) and every label ever appended (`transcript`). The class
  invariant says that the window and the sentence are the newest 30 and 5
  entries of these.
- **The CLI loop** (`main()` in `src/inference.py`) uses the same window,
  history and sentence as local variables. It differs from the engine in
  these ways:
  - the gate looks at the newest 5 predictions;
  - every class has the same threshold, 0.8;
  - a word is spoken aloud for each token appended;
  - the label-index error arises under different conditions.

  The engine looks up `actions[best_idx]` as soon as the gate passes
  (src/engine.py:158), before the confidence test at line 161. The CLI looks
  the label up only after `conf > threshold` (src/inference.py:215-216). It
  then looks it up again for the caption on every result (line 232), so an
  out-of-range index raises in the CLI whatever the gate says.
  `Inference.Recognise` models both lookups.

  `Inference.Iterate` and its parts are one pass of the loop, proved equal
  to the function `Inference.Iteration`. `Inference.Replay` folds passes
  over the first n captures. `Inference.Run` returns exactly the replay of
  the passes it took, and no pass before the last raised or quit.
- **`extract_features`** (`src/feature_extractor.py`) maps 21 landmarks to
  63 reals. It centres them on the wrist and divides by the largest wrist
  distance when that distance is positive. Any other input gives 63 zeros.

The stability gate is modelled as the code writes it. `np.unique(last_n)[0]
== best_idx` holds when the newest index is the **smallest** of the last n
indices. It does not require the n indices to agree (`Stability.StableIff`,
`Stability.NewestSmallestIsStable`, `Inference.OneFrameHelloAccepted`). The
gate also needs `len(predictions) > n` after the append. From a fresh engine,
therefore, the ninth confident result is the first to be accepted, not the
eighth (`Engine.NinthResultAccepted`). The comment at src/engine.py:155 speaks
of an "8 frame hold required", and the one at src/inference.py:211 of
"5 frames". The code accepts any window whose newest index is its smallest,
and this model follows the code.

Outside inputs are parameters:
- whether a frame came with an image;
- the detector's landmark list, as `Option<seq<Point>>`;
- the classifier's latest result, as `Option<seq<real>>`;
- for the CLI, whether the camera read succeeded and whether 'q' was pressed.

The Euclidean norm, a square root, becomes a function parameter `norm`. The
lemmas that need its meaning require `Features.IsNorm(norm)`: it is
non-negative, zero exactly at the origin and positively homogeneous. The
exceptions the code can raise are modelled as the `Raised` outcome / a
`failure` value:
- `np.argmax` of an empty vector;
- an arg-max index past the label list;
- `get_frame` without a camera.

## Model

| member | source | states |
|---|---|---|
| Stability.ArgMax | src/engine.py:150 | The index is in range, no entry is larger, and every earlier entry is strictly smaller (the first maximum). |
| Stability.ArgMaxUnique | src/engine.py:150 | The first-maximum property determines the arg-max uniquely. |
| Stability.Min | src/engine.py:157 | `np.unique(xs)[0]` is an element of `xs` no larger than any other. |
| Stability.Stable | src/engine.py:154-157 | No ensures. The gate `len(predictions) > n and np.unique(predictions[-n:])[0] == best_idx`, characterised by StableIff. |
| Stability.StableIff | src/engine.py:154-157 | The gate holds iff the history is longer than n and the newest index is no larger than each of the last n entries. |
| Stability.RunIsStable | src/engine.py:154-157 | A run of n identical newest entries passes the gate once the history is longer than n. |
| Stability.ShortHistoryUnstable | src/engine.py:154 | A history of at most n entries never passes the gate. |
| Stability.NewestSmallestIsStable | src/engine.py:157 | Eight 1s followed by a 0 pass the 8-entry gate, though the last 8 entries are not all equal. |
| Stability.TakeLast | src/engine.py:140 | `s[-n:]` has length min(len(s), n). |
| Stability.TakeLastIndex | src/engine.py:171-172 | `s[-n:]` is the suffix of `s`: its entry j is entry len(s)-len(r)+j of `s`. |
| Stability.TakeLastAppend | src/engine.py:139-140 | Truncating before an append and again after gives the same as truncating only after. |
| Stability.AppendDistinct | src/engine.py:165-169 | The result is the sentence or the sentence plus the label; it grows iff the sentence is empty or ends in another label; it keeps "no adjacent duplicates" and ends in the label. |
| Stability.TakeLastNoAdjacentDuplicates | src/engine.py:171-172 | Keeping the newest tokens keeps "no adjacent duplicates". |
| Stability.SentenceFollowsTranscript | src/engine.py:165-172 | If the sentence is the newest 5 of the transcript, it grows iff the transcript would, and append-then-truncate keeps the sentence the newest 5 of the extended transcript. |
| Features.Centered | src/feature_extractor.py:20-21 | Centring keeps one point per landmark. |
| Features.Distances | src/feature_extractor.py:25 | One distance per centred landmark. |
| Features.Scaled | src/feature_extractor.py:29 | Division by the largest distance keeps one point per landmark. |
| Features.Normalized | src/feature_extractor.py:28-31 | The normalised hand has one point per landmark. |
| Features.Flatten | src/feature_extractor.py:34 | Flattening n points gives 3n reals. |
| Features.Extract | src/feature_extractor.py:3-36 | The output always has 63 entries; for input that is absent or not exactly 21 landmarks every entry is 0. |
| Features.Max | src/feature_extractor.py:26 | No ensures. `np.max`, characterised by MaxIsLargest and MaxTimes. |
| Features.MaxDistance | src/feature_extractor.py:25-26 | No ensures. `max_dist`, characterised by MaxDistanceZeroIff and MaxDistanceScaled. |
| Features.MaxIsLargest | src/feature_extractor.py:26 | `np.max` is an element no smaller than any other. |
| Features.FlattenAt | src/feature_extractor.py:34 | Entry 3i+k of the flattened points is coordinate k of point i (row-major). |
| Features.ExtractLayout | src/feature_extractor.py:17-36 | Entry 3i+k is coordinate k of landmark i minus the wrist, divided by the largest wrist distance when that is positive. |
| Features.ExtractPointAt | src/feature_extractor.py:29-34 | Output point i is the normalised landmark i. |
| Features.NormalizedWrist | src/feature_extractor.py:20-31 | Normalisation sends the wrist to the origin. |
| Features.WristIsOrigin | src/feature_extractor.py:20-31 | The first three features are always 0. |
| Features.MaxDistanceZeroIff | src/feature_extractor.py:25-28 | The largest wrist distance is non-negative, and zero iff every landmark equals the wrist. |
| Features.DegenerateHandIsZero | src/feature_extractor.py:25-31 | A hand whose landmarks all equal the wrist gives 63 zeros. |
| Features.OutputNorm | src/feature_extractor.py:25-31 | An output point's norm is its wrist distance over the largest one when that is positive, and 0 otherwise. |
| Features.UnitBounded | src/feature_extractor.py:25-29 | Every output point has norm at most 1, and some point has norm exactly 1 iff the largest distance is positive. |
| Features.TranslationInvariant | src/feature_extractor.py:11-21 | Adding one offset to every landmark leaves the features unchanged. |
| Features.MaxTimes | src/feature_extractor.py:26 | The maximum of positive multiples is that multiple of the maximum. |
| Features.MaxDistanceScaled | src/feature_extractor.py:25-26 | Scaling every wrist distance by c scales the largest one by c. |
| Features.NormalizedScaledDegenerate | src/feature_extractor.py:28-31 | For a degenerate hand, a stretched copy has the same normalised landmarks. |
| Features.NormalizedScaledProper | src/feature_extractor.py:28-29 | For a non-degenerate hand, a stretched copy has the same normalised landmarks. |
| Features.ScaleInvariant | src/feature_extractor.py:23-29 | Stretching every wrist-relative offset by one positive factor leaves the features unchanged. |
| Engine.RequiredConfidence | src/engine.py:114-122 | A label must beat 0.95 if it is "Help" and 0.85 otherwise, never less than the default 0.85. |
| Engine.Push | src/engine.py:137-140 | No ensures. The window after a frame, characterised by WindowFollowsFeatures. |
| Engine.Handle | src/engine.py:146-172 | No ensures. The result-handling half of a frame, characterised by PredictionsRecordArgMax, AcceptedIff, SentenceFollowsTranscriptStep and FailuresKeepSentence. |
| Engine.Step | src/engine.py:124-174 | No ensures. One frame as a function of the state before it, characterised by NoImageChangesNothing and WindowFollowsFeatures; ProcessFrame is proved equal to it. |
| Engine.NoImageChangesNothing | src/engine.py:130-131 | Without an image the state is unchanged, nothing is submitted and `(None, sentence, {})` is returned. |
| Engine.WindowFollowsFeatures | src/engine.py:137-143 | The window is the newest 30 of all vectors pushed; frames without landmarks push nothing; a submission happens iff a hand was seen and 30 or more vectors were pushed, and it is the window. |
| Engine.PredictionsRecordArgMax | src/engine.py:149-153 | The history grows by exactly one entry iff a non-empty result was read; the entry is the first maximum's index; nothing is removed. |
| Engine.AcceptedIff | src/engine.py:146-162 | A label is accepted iff: a non-empty result was read; at least 8 earlier predictions exist; its arg-max is no larger than any of the 7 newest of them; the index names a label; the probability beats that label's threshold. The data are `{class, confidence}` then and `{None, 0.0}` otherwise. |
| Engine.SentenceFollowsTranscriptStep | src/engine.py:164-174 | The sentence stays the newest 5 of the transcript; an accepted label is appended iff it differs from the last token; at most one token is added; the transcript and sentence keep "no adjacent duplicates"; the returned sentence is the new sentence. |
| Engine.FailuresKeepSentence | src/engine.py:150-158 | An exception leaves the sentence as it was; the empty result raises iff it is empty; an index error names an arg-max past the label list, already recorded. |
| Engine.NinthResultAccepted | src/engine.py:153-161 | From an empty history, 8 results with "Hello" confidently on top leave it rejected, and a ninth makes it accepted. |
| Engine.HelpNeedsMoreConfidence | src/engine.py:117-122 | "Help" at 0.9 after a run of "Help" is still rejected. |
| Engine.AcceptedSentence | src/engine.py:164-172 | An accepted label leads to the sentence with the label appended unless repeated, cut to 5. |
| Engine.FullSentenceDropsOldest | src/engine.py:165-172 | A new label accepted into a full sentence drops the oldest token. |
| Engine.SignLanguageSystem.constructor | src/engine.py:99-122 | A fresh system has an empty window, history and sentence, keeps the label list, and has a camera iff a capture source was given. |
| Engine.SignLanguageSystem.ProcessFrame | src/engine.py:124-174 | The new state, the return value and the submission are those of `Step` on the old state; the invariant is kept; the transcript grows by the accepted label unless it repeats. |
| Engine.SignLanguageSystem.PushFeatures | src/engine.py:137-143 | The window becomes `Push`'s result and is submitted iff a hand was seen and it is exactly full. |
| Engine.SignLanguageSystem.HandleResult | src/engine.py:146-174 | The history, sentence and return value are those of `Handle`; the invariant is kept. |
| Engine.SignLanguageSystem.AppendToSentence | src/engine.py:165-169 | The sentence and the transcript grow by the label unless it repeats their last token. |
| Engine.SignLanguageSystem.TruncateSentence | src/engine.py:171-172 | The sentence becomes its newest 5 tokens, restoring the invariant. |
| Engine.SignLanguageSystem.GetFrame | src/engine.py:180-185 | No camera raises and changes nothing; a failed read returns `(None, sentence, {})` and changes nothing; otherwise it is `process_frame`. |
| Inference.Recognise | src/inference.py:204-232 | No ensures. The result half of a pass, characterised by SpeaksExactlyOnAppend and SentenceIsNewestSpoken. |
| Inference.Iteration | src/inference.py:175-232 | No ensures. One pass as a function of the locals, characterised by WindowOfPass and PassKeepsInvariant; Iterate is proved equal to it. |
| Inference.Pushed | src/inference.py:192-195 | No ensures. The vectors the first n captures push, in order; WindowOfPass and ReplayInvariant state the window is their newest 30. |
| Inference.Advanced | src/inference.py:175-232 | No ensures. One pass with its effects: its window submitted, its word spoken, its exception recorded. |
| Inference.Replay | src/inference.py:161-232 | No ensures. The first n passes from empty locals, characterised by ReplayInvariant. |
| Inference.ReplayInvariant | src/inference.py:161-227 | After any number of passes: the sentence is the newest 5 words spoken, none twice in a row; the window is the newest 30 vectors pushed; the history has at most one entry per pass; every submission holds 30 vectors. |
| Inference.ContinuedExtends | src/inference.py:175-251 | The loop goes on past a pass that neither raised nor saw 'q'. |
| Inference.SpeaksExactlyOnAppend | src/inference.py:204-224 | A word is spoken iff: a non-empty result was read; more than 5 predictions exist after the append; the arg-max is the smallest of the last 5; it beats 0.8; it names a label that is not the sentence's last token. The word is that label, and the history grows by the arg-max. |
| Inference.SentenceIsNewestSpoken | src/inference.py:216-227 | The sentence stays the newest 5 words spoken; no word is spoken twice in a row; the sentence holds at most 5 words. |
| Inference.WindowOfPass | src/inference.py:176-199 | A failed read changes nothing; a frame without landmarks leaves the window alone; the window is the newest 30 vectors pushed; a full window is submitted exactly after a push. |
| Inference.PassKeepsInvariant | src/inference.py:175-227 | One pass keeps the loop invariant (sentence, spoken words, window, history growth, submission size). |
| Inference.OneFrameHelloAccepted | src/inference.py:209-224 | After five "Please" results, a single confident "Hello" is spoken at once. |
| Inference.Iterate | src/inference.py:175-232 | One pass returns exactly what `Iteration` computes. |
| Inference.PushWindow | src/inference.py:192-199 | The window part of a pass agrees with `Iteration`. |
| Inference.RecogniseResult | src/inference.py:202-232 | The result part of a pass agrees with `Recognise`, including both index errors (lines 216 and 232). |
| Inference.Advance | src/inference.py:175-232 | From the replay of the first n passes, one pass (submit and speak included) gives exactly the replay of the first n + 1. |
| Inference.Run | src/inference.py:161-251 | The locals, submissions, spoken words and exception are exactly the replay of the passes taken. No pass before the last raised or saw 'q', and the loop stops early only on an exception or on 'q' for a read frame. On exit the sentence is the newest 5 words spoken, none repeated in a row; the window is the newest 30 vectors pushed; every submission holds 30 vectors. |

## Left out

- Threads and queues: the camera, classifier and speech workers are inputs and outputs. The freshest-wins handoff is not modelled: a consumed result, the dropping of stale inputs, and timing.
- The classifier, a TensorFlow forward pass, is represented only by its output vector.
- `model_path` is not a parameter of the constructor.
- The hand detector is an external library whose source is not part of this model. Its landmark list is an input.
- OpenCV work is I/O with no effect on the modelled state. This covers `cv2.flip`, drawing, `imshow` and `waitKey`. A key press is the `quit` flag of a capture.
- The FPS calculation is left out. This includes its possible division by zero.
- Run: the `while True` loop is modelled over a finite sequence of captures. It ends when they are exhausted; the real loop would wait for more frames.
- Run: `time.sleep` on a failed read is left out.
- ProcessFrame: the model submits a copy of the window. In Python the submitted list is the object bound to `self.sequence` (src/engine.py:140-143, likewise src/inference.py:195-199). The next frame's `append` at line 139 (src/inference.py:194) mutates it to 31 entries before the slice rebinds the name. A worker that has taken the list from its queue but not yet converted it (src/engine.py:66-71, src/inference.py:74-78) can see those 31 frames. This race is left out with the threads.
- ProcessFrame: the returned sentence is a value, though in Python it is the live list.
- Features.Extract: coordinates are exact reals. IEEE rounding in the subtraction, the norm and the division is not modelled.
- Engine.Handle: the probabilities are exact reals. `np.argmax` treating NaN as maximal (src/engine.py:150) is not modelled. Neither is the float32 `conf` compared with a float64 threshold in `conf > required_conf` (line 161).
- Inference.Recognise: as for Engine.Handle, NaN in `np.argmax` (src/inference.py:206) is not modelled. Neither is the float32-versus-float64 comparison `conf > threshold` (line 215).
- Features.Extract: the Euclidean norm is a parameter. Every lemma that uses its meaning requires only `IsNorm`, which the Euclidean norm satisfies.

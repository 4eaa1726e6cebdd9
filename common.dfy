/** Types shared by every part of the recognition pipeline. */
module Common {

  /** Python's `None` / a present value. */
  datatype Option<T> = None | Some(value: T)

  /** A gesture label such as "Hello" or "Help". */
  type Label = string

  /** One frame's feature vector (63 reals for a detected hand). */
  type FeatureVector = seq<real>

  /** The exceptions the per-frame logic can raise. */
  datatype Failure =
    | EmptyResult                 // `np.argmax` of an empty probability vector raises ValueError
    | LabelIndex(index: nat)      // `actions[best_idx]` with `best_idx` past the label list raises IndexError
    | CameraNotInitialized        // `get_frame` without a camera raises RuntimeError
}

/** What a user-interface callback leaves behind: an optional attribute
    value, and whether the callback returned early, raised, or ran to the
    end with a result. */
module Outcomes {

  /** An attribute that may be None (or, where the program never created it,
      absent). */
  datatype Option<T> = None | Some(value: T)

  /** The exceptions the callbacks can raise. */
  datatype Error =
    | AttributeError(name: string)  // the attribute was never created
    | OpenCvError                   // cv2.cvtColor on None, or unpacking cv2.split of None
    | ShapeMismatch                 // numpy could not broadcast or index with a mask
    | DecodeError                   // v0.py raises ValueError when cv2.imread fails

  /** Skipped: a guard made the callback return without doing anything.
      Raised: an exception left the callback; state assigned before it stays.
      Done: the callback ran to the end and produced `value` (what it shows). */
  datatype Outcome<T> = Skipped | Raised(error: Error) | Done(value: T)
}

/** Failure-carrying values shared by the whole model.

    Python's `None` label becomes `Option.None`; every exception the labelling
    script can raise on well-typed data becomes a `Result.Failure` carrying one
    of the `Error` values below.
 */
module Outcomes {

  /** A value that may be absent (Python's `None`). */
  datatype Option<+T> = None | Some(value: T)

  /** Either a computed value or the error that aborted the computation. */
  datatype Result<+T> = Success(value: T) | Failure(error: Error)

  /** The exceptions the script raises on well-typed input. */
  datatype Error =
    /** An annotation filename is not `Q<int>_<version>...png`
        (IndexError or ValueError in `read_annotations`). */
    | MalformedAnnotationName
    /** A recording filename is not `P<int>_Stimulus<int>.csv`
        (IndexError or ValueError in `read_reformatted_eye_movements_data`). */
    | MalformedRecordingName
    /** No participant/version row matches: `.item()` on an empty selection. */
    | VersionNotFound
    /** Several participant/version rows match: `.item()` on a longer selection. */
    | AmbiguousVersion
    /** The gaze point lies in two or more regions: `.item()` on several labels. */
    | OverlappingRegions
}

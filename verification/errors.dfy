/** Failure-carrying datatypes shared by every component of the downloader,
    and the errors its run can end with. An exception thrown anywhere in the
    program is modelled as a `Failure`/`Fail` value that the caller passes on
    unchanged. */
module Errors {

  /** A value that may be missing: a resolver that found nothing, or an ID
      that could not be extracted from a URL. */
  datatype Option<+T> = None | Some(value: T)

  /** Why a run stopped. */
  datatype Error =
      /** Thrown by stream selection: "No applicable media streams found for this video". */
    | NoApplicableStreams
      /** Thrown by the argument loop as an `ArgumentException` built from "Unrecognized URL or ID: [<arg>]" and the parameter name. */
    | UnrecognizedInput(arg: string)
      /** The resolver could not return the video's metadata. */
    | VideoUnavailable(videoId: string)
      /** The resolver could not return the playlist's metadata. */
    | PlaylistUnavailable(playlistId: string)
      /** The stream download of the given video failed. */
    | DownloadFailed(videoId: string)
      /** The encoder invocation for the given video failed. */
    | EncodeFailed(videoId: string)
      /** Deleting the given video's temporary file failed. */
    | DeleteFailed(videoId: string)
      /** Opening, editing or saving the tags of the given video's output file failed. */
    | TagWriteFailed(videoId: string)

  /** A computation that either produced a value or raised an error. */
  datatype Result<+T> = Success(value: T) | Failure(error: Error)

  /** A computation run for its effects: it either completed or raised an error. */
  datatype Outcome = Pass | Fail(error: Error)
}

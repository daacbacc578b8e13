/** Error values and the two result shapes shared by every module.

    The Go code returns `(value, error)` pairs; a few places also index a
    slice or dereference a pointer that can be empty or nil, which makes the
    Go runtime panic and the whole program stop.  `Result` keeps all three
    outcomes apart, so that no contract has to exclude an input the program
    actually receives. */
module Outcomes {

  datatype Option<+T> = None | Some(value: T)

  /** The errors the modelled code produces, one constructor per kind. */
  datatype Error =
    | NoEntriesToSave
    | FilenameEmpty
    | ReadFailed(path: string)
    | WriteFailed(path: string)
    | DecodeFailed
    | Transport(message: string)
    | BadStatus(code: int)
    | NotImageManifest(mediaType: string)
    | FetchFailed(digest: string)
    | NotAManifest
    | NotAnIndex
    | DigestWithoutColon(digest: string)
    | BlobReadFailed(path: string)
    | BlobDecodeFailed(path: string)
    | IndexUnavailable

  /** `Ok` and `Err` are the two halves of a Go `(value, error)` return;
      `Panic` is a runtime panic that ends the program. */
  datatype Result<+T> = Ok(value: T) | Err(error: Error) | Panic
}

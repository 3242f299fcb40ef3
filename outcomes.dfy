/** What the operations hand back: a value, or the failure that the source
    signals by throwing a RuntimeException. */
module Outcomes {

  datatype Option<T> = None | Some(value: T)

  /** One constructor per exception the façade throws; each carries the path
      (or paths) its message names: the resolved path, except for the public
      `mkdir`, which names the path as given. */
  datatype Error =
    | NotFound(path: string)          // read or size of a missing path
    | SourceNotFound(path: string)    // copy or move from a missing source
    | AlreadyExists(path: string)     // write over an existing path while overwrite is off
    | CreateDirFailed(path: string)   // a directory could not be created
    | ReadFailed(path: string)        // the contents could not be read
    | SizeFailed(path: string)        // the size could not be determined
    | WriteFailed(path: string)       // the contents could not be written
    | DeleteFailed(path: string)      // the path could not be unlinked
    | CopyFailed(source: string, destination: string)

  datatype Result<T> = Ok(value: T) | Err(error: Error)
}

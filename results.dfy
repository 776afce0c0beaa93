/** Option and Result types shared by the store and the tag index. */
module Results {

  /** A value that may be absent (JavaScript `null` / `undefined`). */
  datatype Option<+T> = None | Some(value: T)

  /** What the source throws. */
  datatype Error =
    /** `throw new Error(message)` in the source. */
    | Raised(message: string)
    /** The TypeError Node's path functions raise for an argument that is not a string
        (a root path never set, an object id that is not a string). */
    | NotAString(argument: string)
    /** An error the file system reports, by its code (EISDIR: a directory where a file
        was expected). */
    | Refused(code: string)

  /** The outcome of an operation that may throw. */
  datatype Result<+T> = Success(value: T) | Failure(error: Error)
}

/** The error values the handlers produce and compare against. */
module Errors {

  /** The gRPC status code of a store failure, as far as the handlers look at it. */
  datatype Code = AlreadyExists | NotFound | OtherCode

  /** A failure reported by the document store: a gRPC status with its text. */
  datatype RpcError = RpcError(code: Code, text: string)

  datatype Error =
    // sentinels of the student handlers
    | StudentNotFound
    | MissingTeacherIDs
    | InvalidTeacherIDs
    // sentinels of the user handlers
    | UserExists
    | UserNotFound
    // a store failure, passed on unchanged
    | Rpc(rpc: RpcError)
    // any other failure: hashing, the random source, document decoding
    | Failure(text: string)

  /** Go's `err.Error()`. */
  function Message(e: Error): string
  {
    match e
    case StudentNotFound => "student not found"
    case MissingTeacherIDs => "missing teacherIDs field"
    case InvalidTeacherIDs => "teacherIDs field is not an array of references"
    case UserExists => "user already exists"
    case UserNotFound => "user not found"
    case Rpc(r) => r.text
    case Failure(t) => t
  }
}

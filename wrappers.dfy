/** Small result types shared by the server and client models. */
module Wrappers {

  /** JavaScript's `null`/`undefined` versus a present value. */
  datatype Option<+T> = None | Some(value: T)

  /** What a single GitHub API request answered: the parsed JSON on a 2xx
      status, otherwise the message of the error that `githubRequest` throws. */
  datatype Upstream<+T> = Success(value: T) | Failure(message: string)
}

/** Values shared by every part of the monitor: optional values, results
    carrying an error, the errors the program can meet, and how a step ends. */
module Common {

  datatype Option<+T> = None | Some(value: T)

  datatype Result<+R, +E> = Success(value: R) | Failure(error: E)

  /** The Go `error` values the program handles. Their text comes from the
      operating system or from the HTTP client and is kept abstract. */
  datatype Error =
    | OpenFailed(path: string)       // os.Open could not open the URL file
    | RequestFailed(message: string) // http.Get failed before a response arrived
    | BodyReadFailed(message: string) // ioutil.ReadAll failed on a response body

  /** Whether the program goes on after a step, or terminates with `os.Exit(code)`. */
  datatype Status = Continue | Exit(code: int)
}

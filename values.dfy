/** The shapes of data the package passes around: dictionary values and failure wrappers. */
module Values {

  /** A value of a JSON-compatible Python dictionary. */
  datatype Value =
    | Int(i: int)
    | Real(r: real)
    | Bool(b: bool)
    | Str(s: string)
    | StrList(l: seq<string>)
    | Null

  datatype Option<+T> = None | Some(value: T)

  datatype Result<+T, +E> = Ok(value: T) | Err(error: E)
}

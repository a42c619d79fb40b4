/** An optional field of the TypeScript records this project models. */
module Options {
  datatype Option<+T> = None | Some(value: T)

  /** `value ?? fallback`. */
  function OrElse<T>(o: Option<T>, fallback: T): T {
    match o
    case Some(v) => v
    case None => fallback
  }
}

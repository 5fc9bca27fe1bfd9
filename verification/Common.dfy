/** Result types shared by every component of the model. */
module Common {

  datatype Option<+T> = None | Some(value: T)

  /** `Ok` is what the Rust code returns, `Err` what it bails out with. */
  datatype Result<+T, +E> = Ok(value: T) | Err(error: E)

  function Reversed<T>(xs: seq<T>): seq<T> {
    if xs == [] then [] else Reversed(xs[1..]) + [xs[0]]
  }

  lemma ConcatAssociative<T>(a: seq<T>, b: seq<T>, c: seq<T>)
    ensures a + b + c == a + (b + c)
  {
  }
}

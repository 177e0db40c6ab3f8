/** The ways the library's operations panic, and the result type that models
    a call which either returns or panics. */
module Results {

  /** Why a call panicked. */
  datatype Error =
    | ShapeMismatch           // an `assert!` on lengths or dimensions failed
    | IndexOutOfBounds        // a `Vec` or slice was indexed past its end
    | DivisionByZero          // integer division by a zero divisor
    | EmptyRange              // a random draw from an empty range (or the `usize` underflow computing it)
    | MissingDerivativeInput  // an activation's derivative was called without the operand it needs

  /** The outcome of a call: its value, or the panic that ends it. */
  datatype Result<T> = Ok(value: T) | Err(error: Error)

  datatype Option<T> = None | Some(value: T)
}

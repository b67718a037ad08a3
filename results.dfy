/** Option and Result wrappers, and the error kinds the engine can raise. */
module Results {

  datatype Option<+T> = None | Some(value: T)

  /** The errors the library throws in development mode, plus one for inputs
      the model does not represent. */
  datatype Failure =
    | InputTypeMismatch   // typeof from differs from typeof to
    | UnsupportedValue    // a value that is neither number, string nor array, or an unknown colour family
    | UnsupportedOptions  // options.type is neither "tween" nor "spring"
    | ColorFormatError    // malformed hex / rgb text, or a colour hint of no known family
    | NotIterable         // destructuring a non-iterable value (a TypeError in JavaScript)
    | UnmodelledInput     // an input the model does not represent: one whose JavaScript result is NaN or
                          // Infinity, or a numeral other than a plain decimal one

  datatype Result<+T> = Ok(value: T) | Err(error: Failure)
}

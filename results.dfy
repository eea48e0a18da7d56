/** The exceptions the scripts can raise, and the datatypes that carry them. */
module Results {

  /** The Python exception a step of the scripts raises. */
  datatype Error =
    | ValueError         // int() applied to a string that is not a decimal numeral
    | ZeroDivisionError  // a relative frequency computed against a zero total
    | IndexError         // a record with too few tab-separated fields

  /** Either a value or the exception that aborted the computation. */
  datatype Result<+T> = Ok(value: T) | Err(error: Error)

  datatype Option<+T> = None | Some(value: T)
}

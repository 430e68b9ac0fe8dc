/** Values shared by every part of the model: optional values and the
    exceptions that the Python code raises instead of returning. */
module Common {

  datatype Option<+T> = None | Some(value: T)

  /** The exceptions the modelled code can raise.  A raised exception ends
      the request or the script; nothing after it runs. */
  datatype Error =
    | TypeError       // an operation applied to None (re.match(…, None), None['x'], checkpw(…, None))
    | KeyError        // a missing dictionary key
    | IntegrityError  // a UNIQUE constraint violated by an INSERT or UPDATE
    | NoResultFound   // SQLAlchemy's .one() found no row
    | NameError       // a name used without being imported
    | ValueError      // int() of a text that is not a number

  datatype Result<+T> = Ok(value: T) | Err(error: Error)

  function Min(a: int, b: int): int { if a <= b then a else b }
}

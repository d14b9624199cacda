/** Option and Result, the two failure-compatible wrappers the model uses
    for Python's `None` and for raised exceptions. */
module Wrappers {

  datatype Option<+T> = None | Some(value: T) {
    function GetOr(default: T): T {
      match this
      case Some(v) => v
      case None => default
    }
  }

  datatype Result<+R, +E> = Ok(value: R) | Err(error: E) {
    predicate IsFailure() {
      Err?
    }

    function PropagateFailure<U>(): Result<U, E>
      requires Err?
    {
      Err(error)
    }

    function Extract(): R
      requires Ok?
    {
      value
    }
  }
}

/** The exceptions the modelled code raises, by the Python class and reason. */
module Errors {

  datatype Error =
    | BadLine(line: string)       // ValueError("Bad line: ...") from readfile
    | BadNumber(text: string)     // ValueError from float(text)
    | NoFilepath                  // ValueError("Cannot determine filepath") from writefile
    | NoSuchFile(path: string)    // IOError/OSError from open() or os.rename()
    | NoSuchPath(path: string)    // KeyError from update()
    | ZeroDivision                // ZeroDivisionError (average of nothing, mean volume of an empty playlist)
    | NoValues                    // IndexError: sorted([])[0] in extreme()
    | NotCallable                 // TypeError: existsonly() of a pair calls the pair
    | EmptySelection              // TypeError: unpacking the None that next() returns
    | FormatEntryArity            // TypeError: legacy add_item's warning calls format_entry wrongly
    | NoCommonDivisor             // ValueError("Could not determine a common divisor ...")
    | EmptyMin                    // ValueError: min() of an empty set of weights
    | DivisorAssertion            // AssertionError in the brute-force divisor search
}

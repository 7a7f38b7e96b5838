/** Failure-carrying wrappers used throughout the model. */
module Wrappers {

  datatype Option<+T> = None | Some(value: T)

  /** A computation that either produces a value or raises. */
  datatype Result<+T, +E> = Ok(value: T) | Err(error: E)
}

/** The exceptions the scraper's core raises, one constructor per cause. */
module Errors {

  datatype Error =
    // ValueError raised by daterange for a reversed window
    | InvalidRange
    // ValueError raised by datetime.strptime on a date cell
    | DateFormat(text: string)
    // ValueError raised by the DataFrame constructor for columns of unequal length
    | ColumnLengthMismatch
    // requests.HTTPError raised by raise_for_status
    | HttpStatus(code: int)
    // ValueError raised by pd.concat on an empty list
    | NoObjectsToConcatenate
    // TypeError raised by iterating over None
    | NotIterable
    // AttributeError: a missing `df.Volume` or `.str` on a non-text column
    | MissingAttribute(name: string)
    // KeyError: `df[col]` for a column that is not there
    | MissingColumn(name: string)
    // ValueError raised by astype(float64) on text that is not a number
    | NotANumber(text: string)
    // any failure of the page transport
    | PageUnavailable(url: string)
    // dateutil's ParserError on a listing date
    | UnparseableDate(text: string)
    // any failure of the plain-text extractor
    | ViewUnavailable(url: string)
    // KeyError: an anchor without an href attribute
    | MissingHref
    // the model's bound on the number of listing pages was reached
    | PageBudgetExhausted
}

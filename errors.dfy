/** Failure-carrying values shared by the board and the search: the exceptions the
    Python code raises become `Err` values that the caller can inspect. */
module Errors {

  datatype Option<+T> = None | Some(value: T)

  /** The error conditions of the board and of the coordinator. */
  datatype Error =
    | NegativeDimensions        // numpy refuses a grid with a negative dimension
    | SequenceTooLong           // the win length exceeds the width or the height
    | IndexOutOfRange           // an IndexError: a column outside the grid, moves[-1] on no moves, ...
    | ColumnFull                // ValueError: the column has no empty cell
    | UnsupportedPlayer         // ValueError: the player is not one of the board's players
    | EmptyHistory              // pop on an empty move list
    | MissingCacheEntry         // None['result'] when no cache entry has the move list
    | MissingResultList         // None.append when results arrive without a result list
    | UnexpectedTag(tag: int)   // the coordinator received a message it does not know

  datatype Result<+T> = Ok(value: T) | Err(error: Error)

  /** The outcome of an operation that returns nothing but may fail. */
  datatype Outcome = Pass | Fail(error: Error)
}

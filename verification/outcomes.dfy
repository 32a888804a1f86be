/** How a test ends: with a value, or with the Python exception the source raises. */
module Outcomes {

  /** The exception classes the tests can raise. */
  datatype PyError = TypeError | ValueError | ZeroDivisionError | IndexError | AttributeError

  /** Why a test stopped. Argument positions count from 0 in the order the
      source checks its column-name arguments. */
  datatype Failure =
    | EmptyInput                      // `df.empty`
    | MissingArgument(position: nat)  // a column-name argument is None
    | InvalidArgumentType(position: nat) // a column-name argument is not a str
    | UnknownColumn(name: string)     // the named column is not in the table
    | MissingValue(name: string)      // the named column has a NaN
    | RepeatedColumn(name: string)    // `df[name].hasnans` where several columns carry `name`
    | ZeroDivision                    // Python int or float division by zero
    | EmptyReduction                  // builtin `min`/`max` of an empty sequence
    | PositionOutOfRange              // `iloc` past the last column
    | LengthMismatch                  // assigning a column of the wrong length
    | NoAttribute(name: string)       // `df.<name>` when no such column exists
    | TooFewPoints                    // an area under a curve of fewer than two points

  /** The exception class each failure surfaces as. */
  function Raised(f: Failure): PyError
  {
    match f
    case EmptyInput => TypeError
    case MissingArgument(_) => TypeError
    case InvalidArgumentType(_) => TypeError
    case UnknownColumn(_) => ValueError
    case MissingValue(_) => ValueError
    case RepeatedColumn(_) => AttributeError
    case ZeroDivision => ZeroDivisionError
    case EmptyReduction => ValueError
    case PositionOutOfRange => IndexError
    case LengthMismatch => ValueError
    case NoAttribute(_) => AttributeError
    case TooFewPoints => ValueError
  }

  /** A value, or the failure that stopped the computation; usable with `:-`. */
  datatype Result<+T> = Ok(value: T) | Err(failure: Failure) {
    predicate IsFailure() { Err? }

    function PropagateFailure<U>(): Result<U>
      requires Err?
    {
      Err(failure)
    }

    function Extract(): T
      requires Ok?
    {
      value
    }
  }
}

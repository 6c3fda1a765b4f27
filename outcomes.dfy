/** Option and Result wrappers, and the exceptions the framework raises, as values. */
module Outcomes {

  datatype Option<+T> = None | Some(value: T)

  /** Each exception raised by the modelled code, named after its message or Python class. */
  datatype Error =
    | WrongSignalName            // 'Worng signal name' (dbc) / 'Wrong signal name' (a2l)
    | OutOfRange                 // 'Signal value is out of the valid range'
    | DivisionByZero             // ZeroDivisionError from value / factor
    | CounterSignalMissing       // 'E2E counter signal is missing'
    | CrcSignalMissing           // 'E2E CRC signal is missing'
    | UnresolvedSignal(name: string)   // 'Signal is missing in the input files'
    | UnsupportedWaveform        // 'Not implemented'
    | CoefficientMissing         // IndexError on the coefficient list
    | InvalidEnumValue(value: int)     // ValueError from an Enum lookup
    | MissingKey(key: string)    // KeyError
    | UnsupportedStepType(value: int)  // 'Type ... is not implemented'
    | MissingTestId              // 'Definition of the test XRAY ID is not implemented yet'
    | NotANumber                 // TypeError: arithmetic or comparison on None
    | TupleIndex                 // TypeError: a list indexed by a tuple
    | UnsupportedSource          // '<source> is not supported'
    | UnsupportedAction          // '<action> is not implemented yet'
    | UnsupportedTestType        // 'Test type (...) is not supported'
    | MissingAttribute(attr: string)   // AttributeError
    | NotAwaitable               // TypeError: asyncio.gather given a value that is not awaitable

  datatype Result<+T> = Ok(value: T) | Err(error: Error)
}
